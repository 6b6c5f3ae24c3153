/** The tracking dialog of an order (src/components/dashboard/TrackDialog.tsx):
    a status selector starting at the order's status, three estimate fields,
    image uploads with their previews, and notes. Saving hands the selected
    status to the owner's optional callback, unchecked, and asks the owner
    to close the dialog. */
module TrackDialog {
  import opened Common
  import opened Types
  import OrderCard

  /** The note `handleAddNote` builds at instant `nowMs`: no attachments. */
  function NewNote(nowMs: int, content: string): (n: TaskNote)
    ensures n.id == "note-" + IntToString(nowMs) && n.content == content
    ensures n.createdAt == nowMs && n.createdBy == "Current User" && n.attachments.None?
  {
    TaskNote("note-" + IntToString(nowMs), content, nowMs, "Current User", None)
  }

  /** The dialog writes the same note as an order card with no file chosen. */
  lemma NoteIsCardNoteWithoutFile(nowMs: int, content: string, url: string)
    ensures NewNote(nowMs, content) == OrderCard.NewNote(nowMs, content, None, url)
  {
  }

  /** An estimate field accepts what `parseInt` reads, a text it cannot read
      becomes 0, and the fields' minimum and maximum are not enforced. */
  lemma EstimateParsing(n: nat)
    ensures ParseIntOrZero(NatToString(n)) == n
    ensures ParseIntOrZero("") == 0 && ParseIntOrZero("abc") == 0
    ensures ParseIntOrZero("-5") == -5
  {
    ParseIntOfPrinted(n);
    EmptyText();
    Letters();
    MinusFive();
  }

  lemma EmptyText()
    ensures ParseIntOrZero("") == 0
  {
    assert TrimStart("") == "";
  }

  lemma Letters()
    ensures ParseIntOrZero("abc") == 0
  {
    assert TrimStart("abc") == "abc";
    assert DigitPrefix("abc") == "";
  }

  lemma MinusFive()
    ensures ParseIntOrZero("-5") == -5
  {
    assert !IsWhitespace('-');
    assert TrimStart("-5") == "-5";
    assert "-5"[1..] == "5";
    assert DigitPrefix("5") == "5";
    assert DigitsValue("5") == 5;
  }

  class TrackDialog {
    const order: Order
    const hasCallback: bool
    var isAddingNote: bool
    var noteText: string
    var notes: seq<TaskNote>
    var selectedFiles: seq<File>
    /** The preview URLs, one per selected file. */
    var images: seq<string>
    var status: OrderStatus
    var estimatedHours: int
    var estimatedMinutes: int
    var estimatedSeconds: int
    /** The `(order id, status)` pairs handed to `onStatusChange`, in order. */
    var requests: seq<(string, OrderStatus)>
    /** Whether the dialog has asked its owner to close it. */
    var closeRequested: bool

    /** Every selected file has its preview, at the same position. */
    predicate Valid()
      reads this
    {
      |images| == |selectedFiles|
    }

    constructor (order: Order, hasCallback: bool)
      ensures Valid() && this.order == order && this.hasCallback == hasCallback
      ensures status == order.status
      ensures !isAddingNote && noteText == "" && notes == [] && selectedFiles == [] && images == []
      ensures estimatedHours == 0 && estimatedMinutes == 0 && estimatedSeconds == 0
      ensures requests == [] && !closeRequested
    {
      this.order, this.hasCallback := order, hasCallback;
      isAddingNote, noteText, notes := false, "", [];
      selectedFiles, images := [], [];
      status := order.status;
      estimatedHours, estimatedMinutes, estimatedSeconds := 0, 0, 0;
      requests, closeRequested := [], false;
    }

    /** `handleAddNote`: a blank note is refused and nothing changes;
      otherwise the note is appended and the editor cleared and closed. */
    method AddNote(nowMs: int) returns (added: bool)
      requires Valid()
      modifies this
      ensures Valid()
      ensures added <==> !IsBlank(old(noteText))
      ensures !added ==> notes == old(notes) && noteText == old(noteText) && isAddingNote == old(isAddingNote)
      ensures added ==> notes == old(notes) + [NewNote(nowMs, old(noteText))] && noteText == "" && !isAddingNote
      ensures selectedFiles == old(selectedFiles) && images == old(images) && status == old(status)
      ensures requests == old(requests) && closeRequested == old(closeRequested)
      ensures estimatedHours == old(estimatedHours) && estimatedMinutes == old(estimatedMinutes)
      ensures estimatedSeconds == old(estimatedSeconds)
    {
      if IsBlank(noteText) {
        return false;
      }
      notes := notes + [NewNote(nowMs, noteText)];
      noteText, isAddingNote := "", false;
      return true;
    }

    /** `handleFileSelect`: the chosen files and their preview URLs `urls`
      (one each, made by the browser) are appended; choosing none changes
      nothing. */
    method FileSelect(files: seq<File>, urls: seq<string>)
      requires Valid() && |urls| == |files|
      modifies this
      ensures Valid()
      ensures selectedFiles == old(selectedFiles) + files && images == old(images) + urls
      ensures notes == old(notes) && noteText == old(noteText) && status == old(status)
      ensures requests == old(requests) && closeRequested == old(closeRequested)
      ensures isAddingNote == old(isAddingNote) && estimatedHours == old(estimatedHours)
      ensures estimatedMinutes == old(estimatedMinutes) && estimatedSeconds == old(estimatedSeconds)
    {
      if |files| > 0 {
        selectedFiles := selectedFiles + files;
        images := images + urls;
      }
    }

    /** The status selector. */
    method SelectStatus(s: OrderStatus)
      modifies this
      ensures status == s
      ensures notes == old(notes) && selectedFiles == old(selectedFiles) && images == old(images)
      ensures requests == old(requests) && closeRequested == old(closeRequested)
      ensures isAddingNote == old(isAddingNote) && noteText == old(noteText)
      ensures estimatedHours == old(estimatedHours) && estimatedMinutes == old(estimatedMinutes)
      ensures estimatedSeconds == old(estimatedSeconds)
    {
      status := s;
    }

    /** The three estimate fields: `parseInt(text) || 0`. */
    method SetEstimatedHours(text: string)
      modifies this
      ensures estimatedHours == ParseIntOrZero(text)
      ensures estimatedMinutes == old(estimatedMinutes) && estimatedSeconds == old(estimatedSeconds)
      ensures status == old(status) && notes == old(notes) && images == old(images)
      ensures selectedFiles == old(selectedFiles) && requests == old(requests)
      ensures isAddingNote == old(isAddingNote) && noteText == old(noteText)
      ensures closeRequested == old(closeRequested)
    {
      estimatedHours := ParseIntOrZero(text);
    }

    method SetEstimatedMinutes(text: string)
      modifies this
      ensures estimatedMinutes == ParseIntOrZero(text)
      ensures estimatedHours == old(estimatedHours) && estimatedSeconds == old(estimatedSeconds)
      ensures status == old(status) && notes == old(notes) && images == old(images)
      ensures selectedFiles == old(selectedFiles) && requests == old(requests)
      ensures isAddingNote == old(isAddingNote) && noteText == old(noteText)
      ensures closeRequested == old(closeRequested)
    {
      estimatedMinutes := ParseIntOrZero(text);
    }

    method SetEstimatedSeconds(text: string)
      modifies this
      ensures estimatedSeconds == ParseIntOrZero(text)
      ensures estimatedHours == old(estimatedHours) && estimatedMinutes == old(estimatedMinutes)
      ensures status == old(status) && notes == old(notes) && images == old(images)
      ensures selectedFiles == old(selectedFiles) && requests == old(requests)
      ensures isAddingNote == old(isAddingNote) && noteText == old(noteText)
      ensures closeRequested == old(closeRequested)
    {
      estimatedSeconds := ParseIntOrZero(text);
    }

    /** Typing in the note box. */
    method EditNote(text: string)
      modifies this
      ensures noteText == text
      ensures notes == old(notes) && isAddingNote == old(isAddingNote) && status == old(status)
      ensures selectedFiles == old(selectedFiles) && images == old(images) && requests == old(requests)
      ensures estimatedHours == old(estimatedHours) && estimatedMinutes == old(estimatedMinutes)
      ensures estimatedSeconds == old(estimatedSeconds) && closeRequested == old(closeRequested)
    {
      noteText := text;
    }

    /** The add-note button shows or hides the note editor. */
    method ToggleAddNote()
      modifies this
      ensures isAddingNote == !old(isAddingNote)
      ensures notes == old(notes) && noteText == old(noteText) && status == old(status)
      ensures selectedFiles == old(selectedFiles) && images == old(images) && requests == old(requests)
      ensures estimatedHours == old(estimatedHours) && estimatedMinutes == old(estimatedMinutes)
      ensures estimatedSeconds == old(estimatedSeconds) && closeRequested == old(closeRequested)
    {
      isAddingNote := !isAddingNote;
    }

    /** `handleSave`: whatever status is selected is handed on, with no
      check that the order may move there, and the dialog asks to close. */
    method Save()
      requires Valid()
      modifies this
      ensures Valid()
      ensures hasCallback ==> requests == old(requests) + [(order.id, status)]
      ensures !hasCallback ==> requests == old(requests)
      ensures closeRequested
      ensures status == old(status) && notes == old(notes) && noteText == old(noteText)
      ensures selectedFiles == old(selectedFiles) && images == old(images)
      ensures isAddingNote == old(isAddingNote) && estimatedHours == old(estimatedHours)
      ensures estimatedMinutes == old(estimatedMinutes) && estimatedSeconds == old(estimatedSeconds)
    {
      if hasCallback {
        requests := requests + [(order.id, status)];
      }
      closeRequested := true;
    }
  }

  /** Saving can move an order where its card never offers: a completed
      order can be sent back to pending. */
  lemma SaveIsUnchecked()
    ensures !OrderCard.Offered(true, Completed, Pending)
  {
  }
}
