/** One order's card (src/components/dashboard/OrderCard.tsx): the status
    buttons it offers, its remaining-time row and order total, and the notes
    a user adds to it. The card hands a status change to its owner through
    an optional callback; `requests` records those hand-overs in order. */
module OrderCard {
  import opened Common
  import opened Types

  // ------------------------------------------------------------ transitions

  /** The buttons of the detail dialog's footer, in the order they appear. */
  function DialogActions(hasCallback: bool, status: OrderStatus): seq<OrderStatus> {
    if hasCallback && status != Completed && status != Cancelled then
      (if status == Pending then [InProgress] else [])
      + (if status == InProgress then [Completed] else [])
    else []
  }

  /** The status entries of the card's drop-down menu, in order. */
  function MenuActions(hasCallback: bool, status: OrderStatus): seq<OrderStatus> {
    if hasCallback then
      (if status == Pending then [InProgress] else [])
      + (if status == InProgress then [Completed] else [])
      + (if status == Pending || status == InProgress then [Cancelled] else [])
    else []
  }

  /** The card offers to move an order from `from` to `to`, in the dialog or
      in the menu. */
  predicate Offered(hasCallback: bool, from: OrderStatus, to: OrderStatus) {
    to in DialogActions(hasCallback, from) || to in MenuActions(hasCallback, from)
  }

  /** The offered moves are exactly pending to in progress or cancelled and
      in progress to completed or cancelled, and only with a callback. */
  lemma OfferedTransitions(hasCallback: bool, from: OrderStatus, to: OrderStatus)
    ensures Offered(hasCallback, from, to) ==>
              hasCallback && ((from == Pending && (to == InProgress || to == Cancelled))
                              || (from == InProgress && (to == Completed || to == Cancelled)))
    ensures hasCallback && ((from == Pending && (to == InProgress || to == Cancelled))
                            || (from == InProgress && (to == Completed || to == Cancelled)))
        ==> Offered(hasCallback, from, to)
  {
  }

  /** Completed and cancelled orders, and cards without a callback, offer
      nothing. */
  lemma NothingOffered(hasCallback: bool, from: OrderStatus)
    ensures !hasCallback || from == Completed || from == Cancelled ==>
              DialogActions(hasCallback, from) == [] && MenuActions(hasCallback, from) == []
  {
  }

  /** Every dialog button also appears in the menu; the menu's only extra is
      cancelling. */
  lemma DialogWithinMenu(hasCallback: bool, from: OrderStatus, to: OrderStatus)
    ensures to in DialogActions(hasCallback, from) ==> to in MenuActions(hasCallback, from)
    ensures to in MenuActions(hasCallback, from) && to !in DialogActions(hasCallback, from) ==> to == Cancelled
  {
  }

  /** How far along the lifecycle a status is. */
  function Stage(s: OrderStatus): nat {
    match s
    case Pending => 0
    case InProgress => 1
    case Completed => 2
    case Cancelled => 2
  }

  /** No offered move goes back or stays put, so an order changed only
      through its card's buttons takes at most two steps. */
  lemma OfferedMovesForward(hasCallback: bool, from: OrderStatus, to: OrderStatus)
    requires Offered(hasCallback, from, to)
    ensures Stage(from) < Stage(to)
  {
    OfferedTransitions(hasCallback, from, to);
  }

  // ---------------------------------------------------------- remaining time

  /** `formatTimeRemaining(minutes)` for a whole number of minutes. */
  function FormatTimeRemaining(minutes: int): string {
    if minutes <= 0 then "Time's up!"
    else
      var hrs := minutes / 60;
      var mins := minutes % 60;
      (if hrs > 0 then NatToString(hrs) + "h " else "") + NatToString(mins) + "m"
  }

  /** The text is "Time's up!" exactly when no time is left. */
  lemma TimesUpIffNoTimeLeft(minutes: int)
    ensures FormatTimeRemaining(minutes) == "Time's up!" <==> minutes <= 0
  {
    if minutes > 0 {
      var t := FormatTimeRemaining(minutes);
      assert t[|t| - 1] == 'm';
      assert "Time's up!"[9] == '!';
    }
  }

  /** Different positive times read differently. */
  lemma FormatTimeRemainingInjective(a: int, b: int)
    requires a > 0 && b > 0 && FormatTimeRemaining(a) == FormatTimeRemaining(b)
    ensures a == b
  {
    if a >= 60 && b >= 60 {
      WithHours(a);
      WithHours(b);
      SameHoursText(NatToString(a / 60), NatToString(a % 60), NatToString(b / 60), NatToString(b % 60));
      NatToStringInjective(a / 60, b / 60);
      NatToStringInjective(a % 60, b % 60);
    } else if a < 60 && b < 60 {
      MinutesOnly(a);
      MinutesOnly(b);
      SameMinutesText(NatToString(a), NatToString(b));
      NatToStringInjective(a, b);
    } else if a >= 60 {
      HoursOrNot(a, b);
    } else {
      HoursOrNot(b, a);
    }
  }

  /** From an hour on, the whole hours, then the minutes left over. */
  lemma WithHours(a: int)
    requires a >= 60
    ensures FormatTimeRemaining(a) == NatToString(a / 60) + "h " + NatToString(a % 60) + "m"
  {
  }

  /** Below an hour, the minutes alone. */
  lemma MinutesOnly(a: int)
    requires 0 < a < 60
    ensures FormatTimeRemaining(a) == NatToString(a) + "m"
  {
    assert a / 60 == 0 && a % 60 == a;
  }

  /** Only a time of an hour or more shows an `h`. */
  lemma HoursOrNot(a: int, b: int)
    requires a >= 60 && 0 < b < 60
    ensures FormatTimeRemaining(a) != FormatTimeRemaining(b)
  {
    WithHours(a);
    MinutesOnly(b);
    var h := NatToString(a / 60);
    assert (h + "h " + NatToString(a % 60) + "m")[|h|] == 'h';
    NoLetterInDigits(NatToString(b), 'h');
    assert 'h' !in NatToString(b) + "m";
  }

  lemma SameHoursText(h: string, m: string, h': string, m': string)
    requires AllDigits(h) && AllDigits(m) && AllDigits(h') && AllDigits(m')
    requires h + "h " + m + "m" == h' + "h " + m' + "m"
    ensures h == h' && m == m'
  {
    NoLetterInDigits(h, 'h');
    NoLetterInDigits(h', 'h');
    assert h + "h " + m + "m" == h + ['h'] + (" " + m + "m");
    assert h' + "h " + m' + "m" == h' + ['h'] + (" " + m' + "m");
    SplitAtFirst(h, " " + m + "m", h', " " + m' + "m", 'h');
    assert (" " + m + "m")[1..] == m + "m";
    assert (" " + m' + "m")[1..] == m' + "m";
    SameMinutesText(m, m');
  }

  lemma SameMinutesText(m: string, m': string)
    requires AllDigits(m) && AllDigits(m') && m + "m" == m' + "m"
    ensures m == m'
  {
    assert m == (m + "m")[..|m|];
    assert m' == (m' + "m")[..|m'|];
  }

  lemma NoLetterInDigits(s: string, c: char)
    requires AllDigits(s) && !IsDigit(c)
    ensures c !in s
  {
  }

  /** Text that contains the separator `c` only where shown splits uniquely
      around it. */
  lemma SplitAtFirst(a: string, b: string, a': string, b': string, c: char)
    requires c !in a && c !in a' && a + [c] + b == a' + [c] + b'
    ensures a == a' && b == b'
  {
    var t := a + [c] + b;
    if |a| < |a'| {
      SeparatorInside(a, b, a', b', c);
      assert false;
    } else if |a'| < |a| {
      SeparatorInside(a', b', a, b, c);
      assert false;
    }
    assert a == t[..|a|] == a';
    assert b == t[|a| + 1..] == b';
  }

  /** A longer first part would hold the separator. */
  lemma SeparatorInside(a: string, b: string, a': string, b': string, c: char)
    requires |a| < |a'| && a + [c] + b == a' + [c] + b'
    ensures c in a'
  {
    var t := a + [c] + b;
    assert t[|a|] == c;
    assert t[|a|] == a'[|a|];
  }

  /** The remaining-time row: for pending and in-progress orders with an
      expected time that is set and not zero. */
  predicate ShowsRemaining(o: Order) {
    (o.status == InProgress || o.status == Pending)
    && o.expectedCompletionTime.Some? && o.expectedCompletionTime.value != 0
  }

  /** The warning icon beside the remaining time. */
  predicate ShowsWarning(o: Order) {
    ShowsRemaining(o) && o.expectedCompletionTime.value <= 15
  }

  /** The warning only accompanies a shown row, and every "Time's up!" that
      is shown carries it. */
  lemma WarningOnlyWithRow(o: Order)
    ensures ShowsWarning(o) ==> ShowsRemaining(o) && o.status != Completed && o.status != Cancelled
    ensures ShowsRemaining(o) && FormatTimeRemaining(o.expectedCompletionTime.value) == "Time's up!" ==> ShowsWarning(o)
  {
    if ShowsRemaining(o) {
      TimesUpIffNoTimeLeft(o.expectedCompletionTime.value);
    }
  }

  // ------------------------------------------------------------------ total

  /** The `reduce` of price times quantity over the items, left to right. */
  function OrderTotal(items: seq<Item>): int
    decreases |items|
  {
    if items == [] then 0
    else OrderTotal(items[..|items| - 1]) + items[|items| - 1].price * items[|items| - 1].quantity
  }

  /** The total of a list of items is the sum of the totals of its parts. */
  lemma {:induction false} OrderTotalConcat(a: seq<Item>, b: seq<Item>)
    ensures OrderTotal(a + b) == OrderTotal(a) + OrderTotal(b)
    decreases |b|
  {
    if b == [] {
      assert a + b == a;
    } else {
      var b0 := b[..|b| - 1];
      assert (a + b)[..|a + b| - 1] == a + b0;
      OrderTotalConcat(a, b0);
    }
  }

  /** An item bought at a price in a quantity adds exactly that to the total. */
  lemma OrderTotalOne(x: Item)
    ensures OrderTotal([x]) == x.price * x.quantity
  {
    assert [x][..0] == [];
  }

  /** With no negative price or quantity the total is not negative. */
  lemma {:induction false} OrderTotalNonNegative(items: seq<Item>)
    requires forall i :: 0 <= i < |items| ==> items[i].price >= 0 && items[i].quantity >= 0
    ensures OrderTotal(items) >= 0
    decreases |items|
  {
    if items != [] {
      OrderTotalNonNegative(items[..|items| - 1]);
    }
  }

  // ------------------------------------------------------------------ notes

  /** The kind of an attached file: an image iff its MIME type starts with
      `image/`. */
  function AttachmentKindOf(mimeType: string): (k: NoteAttachmentKind)
    ensures k == ImageNote <==> IsPrefix("image/", mimeType)
  {
    if IsPrefix("image/", mimeType) then ImageNote else TextNote
  }

  /** The note that `handleAddNote` builds at instant `nowMs` (both
      `Date.now()` calls and `new Date()` read that instant); `url` is the
      object URL the browser makes for the file. */
  function NewNote(nowMs: int, content: string, file: Option<File>, url: string): (n: TaskNote)
    ensures n.id == "note-" + IntToString(nowMs) && n.content == content
    ensures n.createdAt == nowMs && n.createdBy == "Current User"
    ensures n.attachments.None? <==> file.None?
    ensures file.Some? ==>
              n.attachments == Some([NoteAttachment("attachment-" + IntToString(nowMs), url, AttachmentKindOf(file.value.mimeType))])
  {
    TaskNote("note-" + IntToString(nowMs), content, nowMs, "Current User",
      if file.Some? then Some([NoteAttachment("attachment-" + IntToString(nowMs), url, AttachmentKindOf(file.value.mimeType))])
      else None)
  }

  class OrderCard {
    const order: Order
    const hasCallback: bool
    var notes: seq<TaskNote>
    var noteText: string
    var selectedFile: Option<File>
    var isAddingNote: bool
    /** The `(order id, status)` pairs handed to `onStatusChange`, in order. */
    var requests: seq<(string, OrderStatus)>

    constructor (order: Order, hasCallback: bool)
      ensures this.order == order && this.hasCallback == hasCallback
      ensures notes == [] && noteText == "" && selectedFile.None? && !isAddingNote && requests == []
    {
      this.order, this.hasCallback := order, hasCallback;
      notes, noteText, selectedFile, isAddingNote := [], "", None, false;
      requests := [];
    }

    /** `handleStatusChange`: forwards the change when there is a callback
      and does nothing otherwise. */
    method StatusChange(status: OrderStatus)
      modifies this
      ensures hasCallback ==> requests == old(requests) + [(order.id, status)]
      ensures !hasCallback ==> requests == old(requests)
      ensures notes == old(notes) && noteText == old(noteText)
      ensures selectedFile == old(selectedFile) && isAddingNote == old(isAddingNote)
    {
      if hasCallback {
        requests := requests + [(order.id, status)];
      }
    }

    /** Typing in the note box. */
    method EditNote(text: string)
      modifies this
      ensures noteText == text
      ensures notes == old(notes) && selectedFile == old(selectedFile)
      ensures isAddingNote == old(isAddingNote) && requests == old(requests)
    {
      noteText := text;
    }

    /** The add-note button shows or hides the note editor. */
    method ToggleAddNote()
      modifies this
      ensures isAddingNote == !old(isAddingNote)
      ensures notes == old(notes) && noteText == old(noteText)
      ensures selectedFile == old(selectedFile) && requests == old(requests)
    {
      isAddingNote := !isAddingNote;
    }

    /** `handleFileSelect`: the first chosen file, if any, replaces the
      selection; choosing none keeps it. */
    method FileSelect(files: seq<File>)
      modifies this
      ensures files != [] ==> selectedFile == Some(files[0])
      ensures files == [] ==> selectedFile == old(selectedFile)
      ensures notes == old(notes) && noteText == old(noteText)
      ensures isAddingNote == old(isAddingNote) && requests == old(requests)
    {
      if |files| > 0 {
        selectedFile := Some(files[0]);
      }
    }

    /** `handleAddNote`: a blank note is refused and nothing changes;
      otherwise exactly one note is appended and the editor is cleared and
      closed. */
    method AddNote(nowMs: int, url: string) returns (added: bool)
      modifies this
      ensures added <==> !IsBlank(old(noteText))
      ensures !added ==>
                notes == old(notes) && noteText == old(noteText)
                && selectedFile == old(selectedFile) && isAddingNote == old(isAddingNote)
      ensures added ==> notes == old(notes) + [NewNote(nowMs, old(noteText), old(selectedFile), url)]
      ensures added ==> noteText == "" && selectedFile.None? && !isAddingNote
      ensures requests == old(requests)
    {
      if IsBlank(noteText) {
        return false;
      }
      notes := notes + [NewNote(nowMs, noteText, selectedFile, url)];
      noteText, selectedFile, isAddingNote := "", None, false;
      return true;
    }
  }
}
