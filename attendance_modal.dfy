/** The attendance dialog (src/components/modals/AttendanceModal.tsx): a form
    of five fields that, on submit, either refuses an incomplete entry or
    hands one new attendance record to its owner, resets and closes. The
    lateness rule here compares clock times as strings. */
module AttendanceModal {
  import opened Common
  import opened Types
  import PerformanceStats

  // ------------------------------------------------------ string ordering

  /** JavaScript `a < b` on strings: lexicographic by character, a proper
      prefix coming first. */
  predicate StrLess(a: string, b: string)
    decreases |a|
  {
    if a == [] then b != []
    else if b == [] then false
    else if a[0] != b[0] then a[0] < b[0]
    else StrLess(a[1..], b[1..])
  }

  /** After a common part of equal length, the order is decided by what
      follows; before it, by the first part alone. */
  lemma {:induction false} StrLessConcat(a: string, b: string, x: string, y: string)
    requires |a| == |b|
    ensures a == b ==> (StrLess(a + x, b + y) <==> StrLess(x, y))
    ensures a != b ==> (StrLess(a + x, b + y) <==> StrLess(a, b))
    decreases |a|
  {
    if a == [] {
      assert a + x == x && b + y == y;
    } else {
      assert (a + x)[0] == a[0] && (b + y)[0] == b[0];
      assert (a + x)[1..] == a[1..] + x && (b + y)[1..] == b[1..] + y;
      StrLessConcat(a[1..], b[1..], x, y);
      if a[0] == b[0] && a[1..] == b[1..] {
        assert a == [a[0]] + a[1..] && b == [b[0]] + b[1..];
      }
    }
  }

  lemma StrLessIrreflexive(a: string)
    ensures !StrLess(a, a)
    decreases |a|
  {
    if a != [] {
      StrLessIrreflexive(a[1..]);
    }
  }

  /** A string comes before any longer string that starts with it. */
  lemma {:induction false} StrLessPrefix(a: string, x: string)
    requires x != []
    ensures StrLess(a, a + x)
    decreases |a|
  {
    if a != [] {
      assert (a + x)[0] == a[0] && (a + x)[1..] == a[1..] + x;
      StrLessPrefix(a[1..], x);
    }
  }

  /** Two-digit paddings compare like the numbers they show. */
  lemma Pad2Order(a: nat, b: nat)
    requires a < 100 && b < 100
    ensures StrLess(Pad2(a), Pad2(b)) <==> a < b
    ensures Pad2(a) == Pad2(b) <==> a == b
  {
    Pad2Digits(a);
    Pad2Digits(b);
    DigitsOrder(Pad2(a), Pad2(b), a, b);
  }

  lemma DigitsOrder(x: string, y: string, a: nat, b: nat)
    requires a < 100 && b < 100
    requires x == [DigitChar(a / 10), DigitChar(a % 10)] && y == [DigitChar(b / 10), DigitChar(b % 10)]
    ensures StrLess(x, y) <==> a < b
    ensures x == y <==> a == b
  {
    TwoCharOrder(DigitChar(a / 10), DigitChar(a % 10), DigitChar(b / 10), DigitChar(b % 10));
    NumberOrder(a, b);
  }

  lemma TwoCharOrder(x1: char, x0: char, y1: char, y0: char)
    ensures StrLess([x1, x0], [y1, y0]) <==> x1 < y1 || (x1 == y1 && x0 < y0)
  {
    assert [x1, x0][1..] == [x0] && [y1, y0][1..] == [y0];
    assert [x0][1..] == [] && [y0][1..] == [];
    assert StrLess([x0], [y0]) <==> x0 < y0 by {
      if x0 == y0 {
        assert !StrLess([], []);
      }
    }
  }

  lemma NumberOrder(a: nat, b: nat)
    requires a < 100 && b < 100
    ensures a < b <==>
              DigitChar(a / 10) < DigitChar(b / 10)
              || (DigitChar(a / 10) == DigitChar(b / 10) && DigitChar(a % 10) < DigitChar(b % 10))
    ensures a == b <==> DigitChar(a / 10) == DigitChar(b / 10) && DigitChar(a % 10) == DigitChar(b % 10)
  {
    assert a == 10 * (a / 10) + a % 10;
    assert b == 10 * (b / 10) + b % 10;
  }

  /** Two `P:Q` texts with first parts of equal length compare by the first
      parts, then by the second. */
  lemma FieldsOrder(p: string, q: string, p': string, q': string)
    requires |p| == |p'|
    ensures StrLess(p + (":" + q), p' + (":" + q')) <==> StrLess(p, p') || (p == p' && StrLess(q, q'))
  {
    var x, y := ":" + q, ":" + q';
    StrLessConcat(p, p', x, y);
    assert x[0] == y[0] && x[1..] == q && y[1..] == q';
    assert StrLess(x, y) <==> StrLess(q, q');
    StrLessIrreflexive(p);
  }

  // -------------------------------------------------------------- records

  /** `clockIn > staffMember.shiftStart && staffMember.role === "employee"` */
  predicate IsLate(clockIn: string, staff: StaffMember) {
    StrLess(staff.shiftStart, clockIn) && staff.role == "employee"
  }

  /** `value || undefined`: an empty text is absent. */
  function OptionalText(s: string): (r: Option<string>)
    ensures r.None? <==> s == ""
    ensures r.Some? ==> r.value == s
  {
    if s == "" then None else Some(s)
  }

  /** The record a complete form produces; `nowMs` is `Date.now()`. */
  function NewRecord(staff: StaffMember, nowMs: int, date: string, clockIn: string, clockOut: string,
                     status: AttendanceStatus, notes: string): (r: AttendanceRecord)
    ensures r.id == "att-" + IntToString(nowMs)
    ensures r.userId == staff.id && r.date == date && r.clockIn == clockIn
    ensures r.clockOut == OptionalText(clockOut) && r.notes == OptionalText(notes)
    ensures IsLate(clockIn, staff) ==> r.status == Late
    ensures !IsLate(clockIn, staff) ==> r.status == status
  {
    AttendanceRecord("att-" + IntToString(nowMs), staff.id, date, clockIn, OptionalText(clockOut),
      if IsLate(clockIn, staff) then Late else status, OptionalText(notes))
  }

  /** Lateness overrides every selection, `absent` included; only employees
      are ever marked late. */
  lemma LateOverridesSelection(staff: StaffMember, nowMs: int, date: string, clockIn: string, clockOut: string,
                               status: AttendanceStatus, notes: string)
    ensures staff.role != "employee" ==> NewRecord(staff, nowMs, date, clockIn, clockOut, status, notes).status == status
    ensures NewRecord(staff, nowMs, date, clockIn, clockOut, status, notes).status == Late
        <==> IsLate(clockIn, staff) || status == Late
  {
  }

  /** On zero-padded `HH:MM` times the string rule is the hour-then-minute
      rule of the statistics page. */
  lemma StringRuleIsNumericRule(ch: nat, cm: nat, sh: nat, sm: nat)
    requires ch < 100 && cm < 100 && sh < 100 && sm < 100
    ensures StrLess(PerformanceStats.ClockText(sh, sm), PerformanceStats.ClockText(ch, cm))
        <==> PerformanceStats.IsLateAt(PerformanceStats.ClockText(ch, cm), PerformanceStats.ClockText(sh, sm))
  {
    PerformanceStats.LatenessOfClockTimes(ch, cm, sh, sm, "");
    Pad2Order(sh, ch);
    Pad2Order(sm, cm);
    Pad2Width(sh);
    Pad2Width(ch);
    ClockOrder(PerformanceStats.ClockText(sh, sm), PerformanceStats.ClockText(ch, cm), Pad2(sh), Pad2(sm), Pad2(ch), Pad2(cm));
  }

  lemma ClockOrder(t: string, t': string, p: string, q: string, p': string, q': string)
    requires t == p + ":" + q && t' == p' + ":" + q' && |p| == |p'|
    ensures StrLess(t, t') <==> StrLess(p, p') || (p == p' && StrLess(q, q'))
  {
    assert t == p + (":" + q) && t' == p' + (":" + q');
    FieldsOrder(p, q, p', q');
  }

  /** With seconds on the clock-in the two rules part: clocking in at the very
      minute the shift starts counts as late here but not on the statistics
      page. */
  lemma SecondsMakeLate(h: nat, m: nat, seconds: string)
    requires seconds != []
    ensures StrLess(PerformanceStats.ClockText(h, m), PerformanceStats.ClockText(h, m) + ":" + seconds)
    ensures !PerformanceStats.IsLateAt(PerformanceStats.ClockText(h, m) + ":" + seconds, PerformanceStats.ClockText(h, m))
  {
    PerformanceStats.LatenessOfClockTimes(h, m, h, m, seconds);
    PrefixWithSeconds(PerformanceStats.ClockText(h, m), seconds);
  }

  lemma PrefixWithSeconds(t: string, seconds: string)
    ensures StrLess(t, t + ":" + seconds)
  {
    assert t + ":" + seconds == t + (":" + seconds);
    StrLessPrefix(t, ":" + seconds);
  }

  // ----------------------------------------------------------------- form

  /** The dialog's form state and what it has handed on: `submitted` holds
      the records passed to `onAttendanceSubmit`, in order, and `open`
      whether the dialog is still shown. `nowTime` and `today` stand for
      the current `HH:MM` time and `yyyy-MM-dd` date. */
  class AttendanceModal {
    var clockIn: string
    var clockOut: string
    var status: AttendanceStatus
    var notes: string
    var date: string
    var submitted: seq<AttendanceRecord>
    var open: bool

    constructor (nowTime: string, today: string)
      ensures clockIn == nowTime && clockOut == "" && status == Present && notes == "" && date == today
      ensures submitted == [] && open
    {
      clockIn, clockOut, status, notes, date := nowTime, "", Present, "", today;
      submitted, open := [], true;
    }

    /** `handleSubmit`. */
    method Submit(staff: StaffMember, nowMs: int, nowTime: string, today: string) returns (accepted: bool)
      modifies this
      ensures accepted <==> old(clockIn) != "" && old(date) != ""
      ensures !accepted ==>
                clockIn == old(clockIn) && clockOut == old(clockOut) && status == old(status)
                && notes == old(notes) && date == old(date) && submitted == old(submitted) && open == old(open)
      ensures accepted ==> submitted == old(submitted)
                              + [NewRecord(staff, nowMs, old(date), old(clockIn), old(clockOut), old(status), old(notes))]
      ensures accepted ==>
                clockIn == nowTime && clockOut == "" && status == Present && notes == "" && date == today && !open
    {
      if clockIn == "" || date == "" {
        return false;
      }
      var record := NewRecord(staff, nowMs, date, clockIn, clockOut, status, notes);
      submitted := submitted + [record];
      clockIn, clockOut, status, notes, date := nowTime, "", Present, "", today;
      open := false;
      return true;
    }

    /** The cancel button and the dialog's own close. */
    method Close()
      modifies this
      ensures !open
      ensures clockIn == old(clockIn) && clockOut == old(clockOut) && status == old(status)
      ensures notes == old(notes) && date == old(date) && submitted == old(submitted)
    {
      open := false;
    }
  }
}
