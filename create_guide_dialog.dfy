/** The new-guide dialog (src/components/dashboard/CreateGuideDialog.tsx):
    a title and a content, uploaded images with their previews, video URLs
    and titled external links, each list with its own add and remove, and a
    save that hands the guide to the owner and empties the form. */
module CreateGuideDialog {
  import opened Common
  import opened Types
  import KnowledgeBase

  /** Where `splice(i, 1)` starts on a list of `len` elements: a negative
      index counts from the end, and both ends are clamped. */
  function SpliceStart(len: nat, i: int): (k: nat)
    ensures k <= len
    ensures 0 <= i <= len ==> k == i
    ensures i < 0 && len + i >= 0 ==> k == len + i
  {
    if i < 0 then (if len + i < 0 then 0 else len + i) else if i > len then len else i
  }

  /** A copy of the list with `splice(i, 1)` applied. */
  function RemoveAt<T>(s: seq<T>, i: int): (r: seq<T>)
    ensures var k := SpliceStart(|s|, i);
            |r| == (if k < |s| then |s| - 1 else |s|)
            && (forall j :: 0 <= j < k && j < |r| ==> r[j] == s[j])
            && (forall j :: k <= j < |r| ==> r[j] == s[j + 1])
  {
    var k := SpliceStart(|s|, i);
    if k < |s| then s[..k] + s[k + 1..] else s
  }

  /** Removing at an index of the list drops exactly that element; an index
      past the end removes nothing. */
  lemma RemoveAtSpec<T>(s: seq<T>, i: int)
    ensures 0 <= i < |s| ==> RemoveAt(s, i) == s[..i] + s[i + 1..]
    ensures 0 <= i < |s| ==> multiset(RemoveAt(s, i)) + multiset{s[i]} == multiset(s)
    ensures i >= |s| ==> RemoveAt(s, i) == s
  {
    if 0 <= i < |s| {
      assert s == s[..i] + [s[i]] + s[i + 1..];
    }
  }

  /** The same removal on two lists of one length leaves them of one
      length. */
  lemma RemoveAtParallel<T, U>(a: seq<T>, b: seq<U>, i: int)
    requires |a| == |b|
    ensures |RemoveAt(a, i)| == |RemoveAt(b, i)|
  {
  }

  /** The guide `handleSave` hands on at instant `nowMs`. */
  function NewGuide(nowMs: int, title: string, content: string, user: Option<User>,
                    images: seq<string>, videos: seq<string>, links: seq<GuideLink>): (g: GuidePage)
    ensures g.id == "guide-" + IntToString(nowMs) && g.createdAt == nowMs
    ensures g.title == title && g.content == content && g.createdBy == KnowledgeBase.AuthorOf(user)
    ensures g.images == images && g.videoUrls == videos && g.externalLinks == links
  {
    GuidePage("guide-" + IntToString(nowMs), title, content, KnowledgeBase.AuthorOf(user), nowMs, images, videos, links)
  }

  class CreateGuideDialog {
    var title: string
    var content: string
    /** The preview URLs, one per selected file. */
    var images: seq<string>
    var selectedFiles: seq<File>
    var videos: seq<string>
    var videoUrl: string
    var links: seq<GuideLink>
    var linkTitle: string
    var linkUrl: string
    var isAddingLink: bool
    /** The guides handed to `onSave`, in order. */
    var savedGuides: seq<GuidePage>
    /** Whether the dialog has asked its owner to close it. */
    var closeRequested: bool

    /** Every selected file has its preview, at the same position. */
    predicate Valid()
      reads this
    {
      |images| == |selectedFiles|
    }

    /** Every list and input of the form is empty. */
    predicate Emptied()
      reads this
    {
      title == "" && content == "" && images == [] && selectedFiles == [] && videos == []
      && videoUrl == "" && links == [] && linkTitle == "" && linkUrl == ""
    }

    constructor ()
      ensures Valid() && Emptied()
      ensures !isAddingLink && savedGuides == [] && !closeRequested
    {
      title, content, images, selectedFiles := "", "", [], [];
      videos, videoUrl, links, linkTitle, linkUrl := [], "", [], "", "";
      isAddingLink, savedGuides, closeRequested := false, [], false;
    }

    /** `handleFileSelect`: the chosen files and their preview URLs `urls`,
      one each, are appended. */
    method FileSelect(files: seq<File>, urls: seq<string>)
      requires Valid() && |urls| == |files|
      modifies this
      ensures Valid()
      ensures selectedFiles == old(selectedFiles) + files && images == old(images) + urls
      ensures videos == old(videos) && links == old(links) && savedGuides == old(savedGuides)
      ensures title == old(title) && content == old(content) && videoUrl == old(videoUrl)
      ensures linkTitle == old(linkTitle) && linkUrl == old(linkUrl) && isAddingLink == old(isAddingLink)
      ensures closeRequested == old(closeRequested)
    {
      if |files| > 0 {
        selectedFiles := selectedFiles + files;
        images := images + urls;
      }
    }

    /** `handleAddVideo`; `urlValid` says whether `new URL(videoUrl)`
      succeeds. A blank entry is ignored and an invalid one kept in the
      input; a valid one is added as typed and the input cleared. */
    method AddVideo(urlValid: bool) returns (added: bool)
      requires Valid()
      modifies this
      ensures Valid()
      ensures added <==> !IsBlank(old(videoUrl)) && urlValid
      ensures added ==> videos == old(videos) + [old(videoUrl)] && videoUrl == ""
      ensures !added ==> videos == old(videos) && videoUrl == old(videoUrl)
      ensures images == old(images) && selectedFiles == old(selectedFiles) && links == old(links)
      ensures savedGuides == old(savedGuides)
      ensures title == old(title) && content == old(content) && linkTitle == old(linkTitle)
      ensures linkUrl == old(linkUrl) && isAddingLink == old(isAddingLink)
      ensures closeRequested == old(closeRequested)
    {
      added := !IsBlank(videoUrl) && urlValid;
      if added {
        videos := videos + [videoUrl];
        videoUrl := "";
      }
    }

    /** `handleAddLink`; `urlValid` says whether `new URL(linkUrl)`
      succeeds. Both fields must be non-blank and the address valid; the
      link is then added as typed, both inputs cleared and the editor
      closed. */
    method AddLink(urlValid: bool) returns (added: bool)
      requires Valid()
      modifies this
      ensures Valid()
      ensures added <==> !IsBlank(old(linkTitle)) && !IsBlank(old(linkUrl)) && urlValid
      ensures added ==> links == old(links) + [GuideLink(old(linkTitle), old(linkUrl))]
                        && linkTitle == "" && linkUrl == "" && !isAddingLink
      ensures !added ==> links == old(links) && linkTitle == old(linkTitle) && linkUrl == old(linkUrl)
                         && isAddingLink == old(isAddingLink)
      ensures images == old(images) && selectedFiles == old(selectedFiles) && videos == old(videos)
      ensures savedGuides == old(savedGuides)
      ensures title == old(title) && content == old(content) && videoUrl == old(videoUrl)
      ensures closeRequested == old(closeRequested)
    {
      added := !IsBlank(linkTitle) && !IsBlank(linkUrl) && urlValid;
      if added {
        links := links + [GuideLink(linkTitle, linkUrl)];
        linkTitle, linkUrl, isAddingLink := "", "", false;
      }
    }

    /** `handleRemoveImage`: the same position leaves both the previews and
      the files. */
    method RemoveImage(index: int)
      requires Valid()
      modifies this
      ensures Valid()
      ensures images == RemoveAt(old(images), index) && selectedFiles == RemoveAt(old(selectedFiles), index)
      ensures videos == old(videos) && links == old(links) && savedGuides == old(savedGuides)
      ensures title == old(title) && content == old(content) && videoUrl == old(videoUrl)
      ensures linkTitle == old(linkTitle) && linkUrl == old(linkUrl) && isAddingLink == old(isAddingLink)
      ensures closeRequested == old(closeRequested)
    {
      RemoveAtParallel(images, selectedFiles, index);
      images := RemoveAt(images, index);
      selectedFiles := RemoveAt(selectedFiles, index);
    }

    method RemoveVideo(index: int)
      requires Valid()
      modifies this
      ensures Valid() && videos == RemoveAt(old(videos), index)
      ensures images == old(images) && selectedFiles == old(selectedFiles) && links == old(links)
      ensures savedGuides == old(savedGuides)
      ensures title == old(title) && content == old(content) && videoUrl == old(videoUrl)
      ensures linkTitle == old(linkTitle) && linkUrl == old(linkUrl) && isAddingLink == old(isAddingLink)
      ensures closeRequested == old(closeRequested)
    {
      videos := RemoveAt(videos, index);
    }

    method RemoveLink(index: int)
      requires Valid()
      modifies this
      ensures Valid() && links == RemoveAt(old(links), index)
      ensures images == old(images) && selectedFiles == old(selectedFiles) && videos == old(videos)
      ensures savedGuides == old(savedGuides)
      ensures title == old(title) && content == old(content) && videoUrl == old(videoUrl)
      ensures linkTitle == old(linkTitle) && linkUrl == old(linkUrl) && isAddingLink == old(isAddingLink)
      ensures closeRequested == old(closeRequested)
    {
      links := RemoveAt(links, index);
    }

    /** The text inputs and the link editor's open state. */
    method EditFields(newTitle: string, newContent: string, newVideoUrl: string,
                      newLinkTitle: string, newLinkUrl: string, addingLink: bool)
      requires Valid()
      modifies this
      ensures Valid() && title == newTitle && content == newContent && videoUrl == newVideoUrl
      ensures linkTitle == newLinkTitle && linkUrl == newLinkUrl && isAddingLink == addingLink
      ensures images == old(images) && selectedFiles == old(selectedFiles) && videos == old(videos)
      ensures links == old(links) && savedGuides == old(savedGuides)
      ensures closeRequested == old(closeRequested)
    {
      title, content, videoUrl := newTitle, newContent, newVideoUrl;
      linkTitle, linkUrl, isAddingLink := newLinkTitle, newLinkUrl, addingLink;
    }

    /** `handleSave` at instant `nowMs` for the signed-in `user`: a blank
      title or content is refused and nothing changes; otherwise the guide
      with the current lists is handed on, every list and input is emptied
      (the link editor's open state is kept) and the dialog asks to close. */
    method Save(nowMs: int, user: Option<User>) returns (saved: bool)
      requires Valid()
      modifies this
      ensures Valid()
      ensures saved <==> !IsBlank(old(title)) && !IsBlank(old(content))
      ensures !saved ==> unchanged(this)
      ensures saved ==> savedGuides == old(savedGuides) + [NewGuide(nowMs, old(title), old(content), user,
                                                               old(images), old(videos), old(links))]
      ensures saved ==> Emptied() && closeRequested
      ensures isAddingLink == old(isAddingLink)
    {
      saved := !IsBlank(title) && !IsBlank(content);
      if saved {
        savedGuides := savedGuides + [NewGuide(nowMs, title, content, user, images, videos, links)];
        title, content, images, selectedFiles := "", "", [], [];
        videos, videoUrl, links, linkTitle, linkUrl := [], "", [], "", "";
        closeRequested := true;
      }
    }
  }
}
