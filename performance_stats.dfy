/** The attendance and order-completion tables of the statistics page
    (src/pages/admin/PerformanceStats.tsx): lateness from clock times, the
    delay of a completed order, and the date filter both tables go through.
    JavaScript `Number` results are `Option<int>`, with `None` standing for
    NaN (and for the `undefined` of a missing clock field, which behaves the
    same in every comparison and subtraction here). */
module PerformanceStats {
  import opened Common
  import opened Types

  // ------------------------------------------------------------ JS numbers

  /** `a > b` on two numbers that may be NaN. */
  predicate Gt(a: Option<int>, b: Option<int>) {
    a.Some? && b.Some? && a.value > b.value
  }

  /** `a === b` on two numbers that may be NaN. */
  predicate Same(a: Option<int>, b: Option<int>) {
    a.Some? && b.Some? && a.value == b.value
  }

  /** `a - b`: NaN when either side is. */
  function Minus(a: Option<int>, b: Option<int>): Option<int> {
    if a.Some? && b.Some? then Some(a.value - b.value) else None
  }

  /** `[hour, minute] = t.split(":").map(Number)`: any further field (the
      seconds) is not read. */
  function HourMinute(t: string): (Option<int>, Option<int>) {
    var parts := Split(t, ':');
    (NumberOf(parts[0]), if |parts| > 1 then NumberOf(parts[1]) else None)
  }

  // -------------------------------------------------------------- lateness

  /** `mockStaffMembers.find(s => s.id === id)`. */
  function FindStaff(staff: seq<StaffMember>, id: string): (r: Option<StaffMember>)
    ensures r.Some? ==> r.value in staff && r.value.id == id
    ensures r.None? ==> forall s :: s in staff ==> s.id != id
    ensures r.Some? ==> exists k :: 0 <= k < |staff| && staff[k] == r.value && forall j :: 0 <= j < k ==> staff[j].id != id
    decreases |staff|
  {
    if staff == [] then None
    else if staff[0].id == id then Some(staff[0])
    else
      var r := FindStaff(staff[1..], id);
      if r.Some? then
        var k :| 0 <= k < |staff[1..]| && staff[1..][k] == r.value && forall j :: 0 <= j < k ==> staff[1..][j].id != id;
        assert staff[k + 1] == r.value;
        r
      else r
  }

  /** `employee?.shiftStart || "09:00"` */
  function ScheduledStart(employee: Option<StaffMember>): string {
    if employee.Some? && employee.value.shiftStart != "" then employee.value.shiftStart else "09:00"
  }

  /** `employee?.name || "Unknown"` */
  function EmployeeName(employee: Option<StaffMember>): string {
    if employee.Some? && employee.value.name != "" then employee.value.name else "Unknown"
  }

  /** Late on the numbers read: later by hour, or by minute in the same hour. */
  predicate LateFields(clock: (Option<int>, Option<int>), scheduled: (Option<int>, Option<int>)) {
    Gt(clock.0, scheduled.0) || (Same(clock.0, scheduled.0) && Gt(clock.1, scheduled.1))
  }

  /** `delayMinutes` on the numbers read: 0 unless late, then the minutes
      between the two. */
  function DelayFields(clock: (Option<int>, Option<int>), scheduled: (Option<int>, Option<int>)): Option<int> {
    if LateFields(clock, scheduled) then
      var dh := Minus(clock.0, scheduled.0);
      var dm := Minus(clock.1, scheduled.1);
      if dh.Some? && dm.Some? then Some(dh.value * 60 + dm.value) else None
    else Some(0)
  }

  /** Clock-in strictly after the scheduled start, by hour then minute. */
  predicate IsLateAt(clockIn: string, scheduled: string) {
    LateFields(HourMinute(clockIn), HourMinute(scheduled))
  }

  function DelayMinutes(clockIn: string, scheduled: string): Option<int> {
    DelayFields(HourMinute(clockIn), HourMinute(scheduled))
  }

  /** One row of the attendance table: the record with the derived columns. */
  datatype AttendanceRow = AttendanceRow(
    record: AttendanceRecord,
    employeeName: string,
    scheduledStart: string,
    isLate: bool,
    delayMinutes: Option<int>)

  function AttendanceRowOf(staff: seq<StaffMember>, record: AttendanceRecord): AttendanceRow {
    var employee := FindStaff(staff, record.userId);
    var scheduled := ScheduledStart(employee);
    AttendanceRow(record, EmployeeName(employee), scheduled,
      IsLateAt(record.clockIn, scheduled), DelayMinutes(record.clockIn, scheduled))
  }

  /** `attendanceData`: one row per record, in the same order. */
  function AttendanceData(staff: seq<StaffMember>, records: seq<AttendanceRecord>): (rows: seq<AttendanceRow>)
    ensures |rows| == |records|
    ensures forall i :: 0 <= i < |rows| ==> rows[i] == AttendanceRowOf(staff, records[i])
  {
    seq(|records|, i requires 0 <= i < |records| => AttendanceRowOf(staff, records[i]))
  }

  /** A record of an unknown employee is measured against 09:00 and shown
      as "Unknown"; the record itself is carried unchanged. */
  lemma UnknownEmployeeDefaults(staff: seq<StaffMember>, record: AttendanceRecord)
    requires forall s :: s in staff ==> s.id != record.userId
    ensures AttendanceRowOf(staff, record).scheduledStart == "09:00"
    ensures AttendanceRowOf(staff, record).employeeName == "Unknown"
    ensures AttendanceRowOf(staff, record).record == record
  {
  }

  /** A clock time `H:M`, each field zero-padded to two digits. */
  function ClockText(h: nat, m: nat): string {
    Pad2(h) + ":" + Pad2(m)
  }

  /** The seconds of a clock-in time are never read. */
  lemma SecondsIgnored(hm: string, hh: string, mm: string, seconds: string)
    requires hm == hh + ":" + mm && ':' !in hh && ':' !in mm
    ensures HourMinute(hm + ":" + seconds) == HourMinute(hm)
  {
    assert hm + ":" + seconds == hh + [':'] + (mm + [':'] + seconds);
    SplitAfterField(hh, mm + [':'] + seconds, ':');
    SplitAfterField(mm, seconds, ':');
    var long := Split(hm + ":" + seconds, ':');
    assert long == [hh] + ([mm] + Split(seconds, ':'));
    assert long[0] == hh && long[1] == mm;
    assert hm == hh + [':'] + mm;
    SplitAfterField(hh, mm, ':');
    SplitNoSep(mm, ':');
    var short := Split(hm, ':');
    assert short == [hh, mm];
  }

  lemma HourMinuteOfClock(h: nat, m: nat, seconds: string)
    ensures HourMinute(ClockText(h, m)) == (Some(h as int), Some(m as int))
    ensures HourMinute(ClockText(h, m) + ":" + seconds) == (Some(h as int), Some(m as int))
  {
    Pad2Value(h);
    Pad2Value(m);
    NumberOfDigits(Pad2(h));
    NumberOfDigits(Pad2(m));
    HourMinuteOfText(ClockText(h, m), Pad2(h), Pad2(m), seconds, h, m);
  }

  lemma HourMinuteOfText(t: string, hh: string, mm: string, seconds: string, h: int, m: int)
    requires t == hh + ":" + mm && ':' !in hh && ':' !in mm
    requires NumberOf(hh) == Some(h) && NumberOf(mm) == Some(m)
    ensures HourMinute(t) == (Some(h), Some(m))
    ensures HourMinute(t + ":" + seconds) == (Some(h), Some(m))
  {
    assert t == hh + [':'] + mm;
    SplitAfterField(hh, mm, ':');
    SplitNoSep(mm, ':');
    SecondsIgnored(t, hh, mm, seconds);
  }

  /** Lateness and delay depend only on the hour and minute read from each
      time: late means later by hour, or by minute within the same hour, and
      the delay is the minutes between the two (0 when on time). */
  lemma LatenessOfFields(clock: (Option<int>, Option<int>), scheduled: (Option<int>, Option<int>), ch: int, cm: int, sh: int, sm: int)
    requires clock == (Some(ch), Some(cm)) && scheduled == (Some(sh), Some(sm))
    ensures LateFields(clock, scheduled) <==> ch > sh || (ch == sh && cm > sm)
    ensures DelayFields(clock, scheduled) == Some(if ch > sh || (ch == sh && cm > sm) then (ch - sh) * 60 + (cm - sm) else 0)
  {
  }

  /** On zero-padded clock times the rule reads the numbers shown, and
      seconds after the minutes change nothing. */
  lemma LatenessOfClockTimes(ch: nat, cm: nat, sh: nat, sm: nat, seconds: string)
    ensures IsLateAt(ClockText(ch, cm), ClockText(sh, sm)) <==> ch > sh || (ch == sh && cm > sm)
    ensures DelayMinutes(ClockText(ch, cm), ClockText(sh, sm))
         == Some(if ch > sh || (ch == sh && cm > sm) then (ch - sh) * 60 + (cm - sm) else 0)
    ensures IsLateAt(ClockText(ch, cm) + ":" + seconds, ClockText(sh, sm)) == IsLateAt(ClockText(ch, cm), ClockText(sh, sm))
    ensures DelayMinutes(ClockText(ch, cm) + ":" + seconds, ClockText(sh, sm)) == DelayMinutes(ClockText(ch, cm), ClockText(sh, sm))
  {
    HourMinuteOfClock(ch, cm, seconds);
    HourMinuteOfClock(sh, sm, "");
    LatenessOfFields(HourMinute(ClockText(ch, cm)), HourMinute(ClockText(sh, sm)), ch, cm, sh, sm);
  }

  /** With minutes below 60 the delay is at least one minute exactly when the
      record is late. */
  lemma DelayPositiveIffLate(ch: nat, cm: nat, sh: nat, sm: nat)
    requires cm < 60 && sm < 60
    ensures var d := DelayMinutes(ClockText(ch, cm), ClockText(sh, sm));
            d.Some? && (d.value >= 1 <==> IsLateAt(ClockText(ch, cm), ClockText(sh, sm)))
  {
    LatenessOfClockTimes(ch, cm, sh, sm, "");
  }

  /** `find` returns the first member with the id. */
  lemma {:induction false} FindStaffFirst(staff: seq<StaffMember>, id: string, k: nat)
    requires k < |staff| && staff[k].id == id
    requires forall j :: 0 <= j < k ==> staff[j].id != id
    ensures FindStaff(staff, id) == Some(staff[k])
    decreases k
  {
    if k > 0 {
      FindStaffFirst(staff[1..], id, k - 1);
    }
  }

  /** A record of a known employee whose shift start and clock-in are
      zero-padded clock times: the row carries the employee's name, and
      lateness and delay follow the hour-then-minute rule on the numbers
      shown. */
  lemma RowOfKnownEmployee(staff: seq<StaffMember>, record: AttendanceRecord, employee: StaffMember,
                            ch: nat, cm: nat, seconds: string, sh: nat, sm: nat)
    requires FindStaff(staff, record.userId) == Some(employee)
    requires record.clockIn == ClockText(ch, cm) + ":" + seconds
    requires employee.shiftStart == ClockText(sh, sm) && employee.name != ""
    ensures var r := AttendanceRowOf(staff, record);
            && r.employeeName == employee.name && r.record == record
            && (r.isLate <==> ch > sh || (ch == sh && cm > sm))
            && r.delayMinutes == Some(if ch > sh || (ch == sh && cm > sm) then (ch - sh) * 60 + (cm - sm) else 0)
  {
    Pad2Value(sh);
    LatenessOfClockTimes(ch, cm, sh, sm, seconds);
  }

  // ------------------------------------------------------- order completion

  /** `staff.allowedCompletionTime || 60`: a missing or zero allowance is 60. */
  function AllowedTime(allowedCompletionTime: Option<int>): (r: int)
    ensures allowedCompletionTime.None? || allowedCompletionTime == Some(0) ==> r == 60
    ensures allowedCompletionTime.Some? && allowedCompletionTime.value != 0 ==> r == allowedCompletionTime.value
  {
    if allowedCompletionTime.Some? && allowedCompletionTime.value != 0 then allowedCompletionTime.value else 60
  }

  datatype CompletionRow = CompletionRow(
    employeeId: string,
    employeeName: string,
    allowedTime: int,
    actualTime: int,
    delayTime: int,
    onTime: bool)

  /** One generated completion row; `draw` is `Math.floor(Math.random() * 60)`,
      so the actual time lies within half an hour of the allowance. */
  function CompletionRowOf(staff: StaffMember, draw: nat): CompletionRow
    requires draw < 60
  {
    var allowed := AllowedTime(staff.allowedCompletionTime);
    var actual := allowed + draw - 30;
    var delay := actual - allowed;
    CompletionRow(staff.id, staff.name, allowed, actual, delay, delay <= 0)
  }

  /** The delay is the actual minus the allowed time and a row is on time
      exactly when the order took no longer than allowed. */
  lemma CompletionDelay(staff: StaffMember, draw: nat)
    requires draw < 60
    ensures var r := CompletionRowOf(staff, draw);
            && r.delayTime == r.actualTime - r.allowedTime
            && (r.onTime <==> r.actualTime <= r.allowedTime)
            && -30 <= r.delayTime < 30
            && r.allowedTime == AllowedTime(staff.allowedCompletionTime)
  {
  }

  // ----------------------------------------------------------- date filter

  /** The filter mode with its selection: a day, a `yyyy-MM` month, or a
      range whose bounds may be unset. */
  datatype DateFilter = ByDay(selectedDate: int) | ByMonth(selectedMonth: string) | ByRange(from: Option<int>, to: Option<int>)

  /** Whether one item passes; `dayKey` and `monthKey` stand for date-fns
      `format` with "yyyy-MM-dd" and "yyyy-MM". */
  predicate Keeps(mode: DateFilter, d: int, dayKey: int -> string, monthKey: int -> string) {
    match mode
    case ByDay(sel) => dayKey(d) == dayKey(sel)
    case ByMonth(m) => monthKey(d) == m
    case ByRange(from, to) =>
      from.None? || (from.value <= d && (to.None? || d <= to.value))
  }

  /** `filterData(data, dateField)`, with `stamp` reading the date field. */
  function FilterData<T>(data: seq<T>, mode: DateFilter, stamp: T -> int, dayKey: int -> string, monthKey: int -> string): seq<T> {
    match mode
    case ByDay(sel) => Filter(data, x => dayKey(stamp(x)) == dayKey(sel))
    case ByMonth(m) => Filter(data, x => monthKey(stamp(x)) == m)
    case ByRange(from, to) =>
      if from.None? then data
      else if to.Some? then Filter(data, x => stamp(x) >= from.value && stamp(x) <= to.value)
      else Filter(data, x => stamp(x) >= from.value)
  }

  /** The filter keeps an order-preserving sub-sequence of the data: exactly
      the items whose date passes the selection. Both range bounds are
      inclusive, and a range without a start keeps everything. */
  lemma FilterDataSpec<T>(data: seq<T>, mode: DateFilter, stamp: T -> int, dayKey: int -> string, monthKey: int -> string)
    ensures IsSubseq(FilterData(data, mode, stamp, dayKey, monthKey), data)
    ensures forall x :: x in FilterData(data, mode, stamp, dayKey, monthKey) ==> x in data && Keeps(mode, stamp(x), dayKey, monthKey)
    ensures forall x :: x in data && Keeps(mode, stamp(x), dayKey, monthKey) ==> x in FilterData(data, mode, stamp, dayKey, monthKey)
    ensures mode.ByRange? && mode.from.None? ==> FilterData(data, mode, stamp, dayKey, monthKey) == data
  {
    match mode
    case ByDay(sel) => FilterSpec(data, x => dayKey(stamp(x)) == dayKey(sel));
    case ByMonth(m) => FilterSpec(data, x => monthKey(stamp(x)) == m);
    case ByRange(from, to) =>
      if from.None? {
        SubseqRefl(data);
      } else if to.Some? {
        FilterSpec(data, x => stamp(x) >= from.value && stamp(x) <= to.value);
      } else {
        FilterSpec(data, x => stamp(x) >= from.value);
      }
  }
}
