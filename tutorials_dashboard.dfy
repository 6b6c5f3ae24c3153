/** The tutorials page (src/pages/admin/TutorialsDashboard.tsx): a list of
    guides with a dialog that creates a new one or edits an existing one,
    and a delete button on each. */
module TutorialsDashboard {
  import opened Common
  import opened Types

  /** `handleDeleteTutorial`: every tutorial with the id goes. */
  function Deleted(tutorials: seq<KnowledgeItem>, id: string): seq<KnowledgeItem> {
    Filter(tutorials, (t: KnowledgeItem) => t.id != id)
  }

  /** After a delete no tutorial has the id, every other one is still there
      in its order, and deleting again changes nothing. */
  lemma DeletedSpec(tutorials: seq<KnowledgeItem>, id: string)
    ensures IsSubseq(Deleted(tutorials, id), tutorials)
    ensures forall t :: t in Deleted(tutorials, id) <==> t in tutorials && t.id != id
    ensures Deleted(Deleted(tutorials, id), id) == Deleted(tutorials, id)
  {
    FilterSpec(tutorials, (t: KnowledgeItem) => t.id != id);
    FilterAll(Deleted(tutorials, id), (t: KnowledgeItem) => t.id != id);
  }

  /** The kind of an uploaded file: an image exactly when its MIME type
      starts with `image/`. */
  function AttachmentKindOf(mimeType: string): (k: AttachmentKind)
    ensures k == ImageFile <==> IsPrefix("image/", mimeType)
    ensures k != VideoFile
  {
    if IsPrefix("image/", mimeType) then ImageFile else DocumentFile
  }

  /** The attachments of a saved tutorial, one per file at instant `nowMs`;
      `urls` are the object URLs the browser makes, one per file. */
  function AttachmentsOf(files: seq<File>, urls: seq<string>, nowMs: int): (r: Option<seq<Attachment>>)
    requires |urls| == |files|
    ensures r.None? <==> files == []
    ensures r.Some? ==> |r.value| == |files|
    ensures r.Some? ==> forall i :: 0 <= i < |files| ==>
              r.value[i] == Attachment("attachment-" + IntToString(nowMs) + "-" + NatToString(i),
                                       files[i].name, AttachmentKindOf(files[i].mimeType), urls[i])
  {
    if files == [] then None
    else Some(seq(|files|, i requires 0 <= i < |files| =>
      Attachment("attachment-" + IntToString(nowMs) + "-" + NatToString(i),
                 files[i].name, AttachmentKindOf(files[i].mimeType), urls[i])))
  }

  /** The attachment ids of one save are distinct. */
  lemma AttachmentIdsDistinct(files: seq<File>, urls: seq<string>, nowMs: int, i: nat, j: nat)
    requires |urls| == |files| && i < j < |files|
    ensures AttachmentsOf(files, urls, nowMs).value[i].id != AttachmentsOf(files, urls, nowMs).value[j].id
  {
    var a := AttachmentsOf(files, urls, nowMs).value;
    var p := "attachment-" + IntToString(nowMs) + "-";
    assert a[i].id == p + NatToString(i) && a[j].id == p + NatToString(j);
    if a[i].id == a[j].id {
      assert NatToString(i) == a[i].id[|p|..];
      assert NatToString(j) == a[j].id[|p|..];
      NatToStringInjective(i, j);
    }
  }

  /** The tutorial `handleSaveTutorial` writes at instant `nowMs`: an edit
      keeps the original id and creation time; the type is always a guide. */
  function Saved(current: Option<KnowledgeItem>, title: string, content: string, category: string,
                 files: seq<File>, urls: seq<string>, nowMs: int): (t: KnowledgeItem)
    requires |urls| == |files|
    ensures current.Some? && current.value.id != "" ==> t.id == current.value.id
    ensures current.None? || current.value.id == "" ==> t.id == "tutorial-" + IntToString(nowMs)
    ensures current.Some? ==> t.createdAt == current.value.createdAt
    ensures current.None? ==> t.createdAt == nowMs
    ensures t.kind == Guide && t.createdBy == "Admin" && t.updatedAt == Some(nowMs) && t.department.None?
    ensures t.title == title && t.content == content && t.category == category
    ensures t.attachments == AttachmentsOf(files, urls, nowMs)
  {
    KnowledgeItem(
      if current.Some? && current.value.id != "" then current.value.id else "tutorial-" + IntToString(nowMs),
      title, content, Guide, None, category, "Admin",
      if current.Some? then current.value.createdAt else nowMs,
      Some(nowMs), AttachmentsOf(files, urls, nowMs))
  }

  /** An edited instruction comes back as a guide. */
  lemma EditingMakesGuide(current: KnowledgeItem, title: string, content: string, category: string, nowMs: int)
    requires current.kind == Instruction
    ensures Saved(Some(current), title, content, category, [], [], nowMs).kind != current.kind
  {
  }

  /** The edit branch: every tutorial with the edited id is replaced. */
  function Replaced(tutorials: seq<KnowledgeItem>, id: string, t: KnowledgeItem): (r: seq<KnowledgeItem>)
    ensures |r| == |tutorials|
    ensures forall i :: 0 <= i < |tutorials| ==> r[i] == (if tutorials[i].id == id then t else tutorials[i])
  {
    seq(|tutorials|, i requires 0 <= i < |tutorials| => if tutorials[i].id == id then t else tutorials[i])
  }

  /** Saving an edit of a listed tutorial whose id is set leaves exactly one
      version of it when the ids were unique. */
  lemma EditReplacesInPlace(tutorials: seq<KnowledgeItem>, k: nat, t: KnowledgeItem)
    requires k < |tutorials| && t.id == tutorials[k].id
    requires forall i, j :: 0 <= i < j < |tutorials| ==> tutorials[i].id != tutorials[j].id
    ensures Replaced(tutorials, tutorials[k].id, t) == tutorials[k := t]
  {
  }

  /** The list after a save: an edit replaces the edited tutorial in place,
      a creation goes last. */
  function SavedList(tutorials: seq<KnowledgeItem>, editing: bool, current: Option<KnowledgeItem>,
                     t: KnowledgeItem): (r: seq<KnowledgeItem>)
    requires editing ==> current.Some?
    ensures editing ==> r == Replaced(tutorials, current.value.id, t)
    ensures !editing ==> r == tutorials + [t]
  {
    if editing then Replaced(tutorials, current.value.id, t) else tutorials + [t]
  }

  /** The save guard: neither the title nor the content trims to empty. */
  predicate FormFilled(title: string, content: string) {
    !IsBlank(title) && !IsBlank(content)
  }

  /** `initialTutorials`, created at the instant `nowMs` the page is
      loaded: a guide about orders and an instruction about support. */
  function InitialTutorials(nowMs: int): seq<KnowledgeItem> {
    [KnowledgeItem("1", "How to process an order",
                   "This guide covers the steps to process an order from start to finish.",
                   Guide, None, "Orders", "Admin", nowMs, Some(nowMs), None),
     KnowledgeItem("2", "Customer support best practices",
                   "Learn how to provide exceptional customer support.",
                   Instruction, None, "Support", "Admin", nowMs, None, None)]
  }

  /** Editing the initial instruction and saving it without files replaces
      it in place with a guide under the same id and creation time. */
  lemma EditInitialInstruction(loaded: int, title: string, content: string, category: string, nowMs: int)
    ensures var list := InitialTutorials(loaded);
            var t := Saved(Some(list[1]), title, content, category, [], [], nowMs);
            var r := SavedList(list, true, Some(list[1]), t);
            |r| == 2 && r[0] == list[0] && r[1].id == "2" && r[1].kind == Guide && r[1].createdAt == loaded
  {
  }

  class TutorialsDashboard {
    var tutorials: seq<KnowledgeItem>
    var isDialogOpen: bool
    var isEditMode: bool
    var currentTutorial: Option<KnowledgeItem>
    var title: string
    var content: string
    var category: string
    var externalLink: string
    var files: seq<File>

    /** Edit mode is entered only with the tutorial being edited. */
    predicate Valid()
      reads this
    {
      isEditMode ==> currentTutorial.Some?
    }

    constructor (initial: seq<KnowledgeItem>)
      ensures Valid() && tutorials == initial && !isDialogOpen && !isEditMode && currentTutorial.None?
      ensures title == "" && content == "" && category == "" && externalLink == "" && files == []
    {
      tutorials := initial;
      isDialogOpen, isEditMode, currentTutorial := false, false, None;
      title, content, category, externalLink, files := "", "", "", "", [];
    }

    /** `handleNewTutorial`: an empty form in create mode. */
    method NewTutorial()
      modifies this
      ensures Valid() && !isEditMode && currentTutorial.None? && isDialogOpen
      ensures title == "" && content == "" && category == "" && externalLink == "" && files == []
      ensures tutorials == old(tutorials)
    {
      isEditMode, currentTutorial := false, None;
      title, content, category, externalLink, files := "", "", "", "", [];
      isDialogOpen := true;
    }

    /** `handleEditTutorial`: the form holds the tutorial's title, content
      and category, with no link and no files. */
    method EditTutorial(t: KnowledgeItem)
      modifies this
      ensures Valid() && isEditMode && currentTutorial == Some(t) && isDialogOpen
      ensures title == t.title && content == t.content && category == t.category
      ensures externalLink == "" && files == []
      ensures tutorials == old(tutorials)
    {
      isEditMode, currentTutorial := true, Some(t);
      title, content, category := t.title, t.content, t.category;
      externalLink, files := "", [];
      isDialogOpen := true;
    }

    method DeleteTutorial(id: string)
      requires Valid()
      modifies this
      ensures Valid() && tutorials == Deleted(old(tutorials), id)
      ensures isDialogOpen == old(isDialogOpen) && isEditMode == old(isEditMode)
      ensures currentTutorial == old(currentTutorial) && files == old(files)
      ensures title == old(title) && content == old(content) && category == old(category)
      ensures externalLink == old(externalLink)
    {
      tutorials := Deleted(tutorials, id);
    }

    /** `handleFileChange`: a choice replaces the files; no choice keeps
      them. */
    method FileChange(chosen: Option<seq<File>>)
      requires Valid()
      modifies this
      ensures Valid() && files == (if chosen.Some? then chosen.value else old(files))
      ensures tutorials == old(tutorials) && title == old(title) && content == old(content)
      ensures isEditMode == old(isEditMode) && currentTutorial == old(currentTutorial)
      ensures isDialogOpen == old(isDialogOpen) && category == old(category)
      ensures externalLink == old(externalLink)
    {
      if chosen.Some? {
        files := chosen.value;
      }
    }

    /** The form's text fields. */
    method EditFields(newTitle: string, newContent: string, newCategory: string, newLink: string)
      requires Valid()
      modifies this
      ensures Valid() && title == newTitle && content == newContent && category == newCategory
      ensures externalLink == newLink
      ensures tutorials == old(tutorials) && files == old(files) && isDialogOpen == old(isDialogOpen)
      ensures isEditMode == old(isEditMode) && currentTutorial == old(currentTutorial)
    {
      title, content, category, externalLink := newTitle, newContent, newCategory, newLink;
    }

    /** The dialog's open state, from its close button or its overlay. */
    method SetDialogOpen(open: bool)
      requires Valid()
      modifies this
      ensures Valid() && isDialogOpen == open
      ensures tutorials == old(tutorials) && files == old(files) && title == old(title)
      ensures content == old(content)
      ensures isEditMode == old(isEditMode) && currentTutorial == old(currentTutorial)
      ensures category == old(category) && externalLink == old(externalLink)
    {
      isDialogOpen := open;
    }

    /** `handleSaveTutorial` at instant `nowMs`, with `urls` the object URLs
      of the files: a blank title or content is refused with the list and
      the dialog untouched; otherwise an edit replaces the tutorial in
      place, a creation goes last, and the dialog closes. */
    method Save(nowMs: int, urls: seq<string>) returns (saved: bool)
      requires Valid() && |urls| == |files|
      modifies this
      ensures Valid()
      ensures saved <==> FormFilled(old(title), old(content))
      ensures !saved ==> tutorials == old(tutorials) && isDialogOpen == old(isDialogOpen)
      ensures saved ==> !isDialogOpen && tutorials == SavedList(old(tutorials), old(isEditMode), old(currentTutorial),
                          Saved(old(currentTutorial), old(title), old(content), old(category), old(files), urls, nowMs))
      ensures title == old(title) && content == old(content) && category == old(category) && files == old(files)
      ensures isEditMode == old(isEditMode) && currentTutorial == old(currentTutorial)
      ensures externalLink == old(externalLink)
    {
      saved := FormFilled(title, content);
      if saved {
        tutorials := SavedList(tutorials, isEditMode, currentTutorial,
          Saved(currentTutorial, title, content, category, files, urls, nowMs));
        isDialogOpen := false;
      }
    }
  }
}
