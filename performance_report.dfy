/** The delay report (src/components/dashboard/PerformanceReport.tsx): per
    employee, the total and average delay over their report entries, listed
    by total delay, largest first; per day, the sum of the positive delays;
    and the minutes formatter both use. JavaScript numbers are `real`s where
    they can be fractional (the average) and `int`s where they cannot. */
module PerformanceReport {
  import opened Common
  import opened Types

  /** The no-data view: no report, or an empty one. */
  predicate ShowsNoData(report: Option<seq<DelayReport>>) {
    report.None? || |report.value| == 0
  }

  // --------------------------------------------------------------- per employee

  datatype EmployeeRow = EmployeeRow(id: string, name: string, totalDelay: int, completedTasks: nat, averageDelay: real)

  /** The `reduce` of `delayTime || 0`, left to right. */
  function TotalDelay(entries: seq<DelayReport>): int
    decreases |entries|
  {
    if entries == [] then 0
    else TotalDelay(entries[..|entries| - 1]) + entries[|entries| - 1].delayTime.GetOr(0)
  }

  lemma {:induction false} TotalDelayConcat(a: seq<DelayReport>, b: seq<DelayReport>)
    ensures TotalDelay(a + b) == TotalDelay(a) + TotalDelay(b)
    decreases |b|
  {
    if b == [] {
      assert a + b == a;
    } else {
      assert (a + b)[..|a + b| - 1] == a + b[..|b| - 1];
      TotalDelayConcat(a, b[..|b| - 1]);
    }
  }

  function EntriesOf(report: seq<DelayReport>, id: string): seq<DelayReport> {
    Filter(report, (r: DelayReport) => r.userId == id)
  }

  /** One employee's row. */
  function RowOf(employee: StaffMember, report: seq<DelayReport>): (row: EmployeeRow)
    ensures row.id == employee.id && row.name == employee.name
    ensures row.totalDelay == TotalDelay(EntriesOf(report, employee.id))
    ensures row.completedTasks == Count(EntriesOf(report, employee.id), (r: DelayReport) => r.status == Completed)
    ensures row.completedTasks > 0 ==> row.averageDelay == row.totalDelay as real / row.completedTasks as real
    ensures row.completedTasks == 0 ==> row.averageDelay == 0.0
  {
    var entries := EntriesOf(report, employee.id);
    var total := TotalDelay(entries);
    var completed := Count(entries, (r: DelayReport) => r.status == Completed);
    EmployeeRow(employee.id, employee.name, total, completed,
      if completed > 0 then total as real / completed as real else 0.0)
  }

  function RowsOf(staff: seq<StaffMember>, report: seq<DelayReport>): (rows: seq<EmployeeRow>)
    ensures |rows| == |staff| && forall i :: 0 <= i < |staff| ==> rows[i] == RowOf(staff[i], report)
  {
    seq(|staff|, i requires 0 <= i < |staff| => RowOf(staff[i], report))
  }

  /** `delayByEmployee`: the rows of employees with a completed task, sorted
      by total delay, largest first. */
  function DelayByEmployee(staff: seq<StaffMember>, report: seq<DelayReport>): seq<EmployeeRow> {
    SortByDelay(Filter(RowsOf(staff, report), (r: EmployeeRow) => r.completedTasks > 0))
  }

  /** The listed rows are exactly the rows of the employees with a completed
      task, each once, and they run from the largest total delay down. */
  lemma DelayByEmployeeSpec(staff: seq<StaffMember>, report: seq<DelayReport>)
    ensures var kept := Filter(RowsOf(staff, report), (r: EmployeeRow) => r.completedTasks > 0);
            multiset(DelayByEmployee(staff, report)) == multiset(kept)
    ensures SortedByDelay(DelayByEmployee(staff, report))
    ensures forall r :: r in DelayByEmployee(staff, report) ==> r.completedTasks > 0
    ensures forall i :: 0 <= i < |staff| && RowOf(staff[i], report).completedTasks > 0 ==>
              RowOf(staff[i], report) in DelayByEmployee(staff, report)
  {
    var kept := Filter(RowsOf(staff, report), (r: EmployeeRow) => r.completedTasks > 0);
    SortPermutes(kept);
    SortSorts(kept);
    KeptRows(staff, report);
    SameElements(DelayByEmployee(staff, report), kept);
  }

  /** The kept rows are those with a completed task. */
  lemma KeptRows(staff: seq<StaffMember>, report: seq<DelayReport>)
    ensures var kept := Filter(RowsOf(staff, report), (r: EmployeeRow) => r.completedTasks > 0);
            (forall r :: r in kept ==> r.completedTasks > 0)
            && forall i :: 0 <= i < |staff| && RowOf(staff[i], report).completedTasks > 0 ==> RowOf(staff[i], report) in kept
  {
    var rows := RowsOf(staff, report);
    FilterSpec(rows, (r: EmployeeRow) => r.completedTasks > 0);
    forall i | 0 <= i < |staff| && RowOf(staff[i], report).completedTasks > 0
      ensures RowOf(staff[i], report) in Filter(rows, (r: EmployeeRow) => r.completedTasks > 0)
    {
      assert rows[i] in rows;
    }
  }

  lemma SameElements<T>(a: seq<T>, b: seq<T>)
    requires multiset(a) == multiset(b)
    ensures forall x :: x in a <==> x in b
  {
    forall x
      ensures x in a <==> x in b
    {
      assert x in a <==> x in multiset(a);
      assert x in b <==> x in multiset(b);
    }
  }

  /** Entries whose user is not on the staff list change no row. */
  lemma UnknownEntriesIgnored(staff: seq<StaffMember>, report: seq<DelayReport>, extra: seq<DelayReport>)
    requires forall x, e :: x in extra && e in staff ==> x.userId != e.id
    ensures DelayByEmployee(staff, report + extra) == DelayByEmployee(staff, report)
  {
    forall i | 0 <= i < |staff|
      ensures RowOf(staff[i], report + extra) == RowOf(staff[i], report)
    {
      var p := (r: DelayReport) => r.userId == staff[i].id;
      FilterConcat(report, extra, p);
      FilterNone(extra, p);
      assert EntriesOf(report + extra, staff[i].id) == EntriesOf(report, staff[i].id);
    }
    assert RowsOf(staff, report + extra) == RowsOf(staff, report);
  }

  /** The total counts every entry of the employee, whatever its status and
      sign, and a missing delay as 0. */
  lemma TotalDelayCountsEverything(a: seq<DelayReport>, x: DelayReport)
    ensures TotalDelay(a + [x]) == TotalDelay(a) + x.delayTime.GetOr(0)
  {
    assert (a + [x])[..|a + [x]| - 1] == a;
  }

  /** The warning icon beside an average delay above half an hour. */
  predicate AverageWarning(row: EmployeeRow) {
    row.averageDelay > 30.0
  }

  // ------------------------------------------------------------------ sort

  ghost predicate SortedByDelay(s: seq<EmployeeRow>) {
    forall i, j :: 0 <= i < j < |s| ==> s[i].totalDelay >= s[j].totalDelay
  }

  /** `x` goes before the first row whose delay is not larger. */
  function Insert(x: EmployeeRow, t: seq<EmployeeRow>): seq<EmployeeRow>
    decreases |t|
  {
    if t == [] || t[0].totalDelay <= x.totalDelay then [x] + t else [t[0]] + Insert(x, t[1..])
  }

  /** `.sort((a, b) => b.totalDelay - a.totalDelay)`, which is stable. */
  function SortByDelay(s: seq<EmployeeRow>): seq<EmployeeRow>
    decreases |s|
  {
    if s == [] then [] else Insert(s[0], SortByDelay(s[1..]))
  }

  lemma {:induction false} InsertPermutes(x: EmployeeRow, t: seq<EmployeeRow>)
    ensures multiset(Insert(x, t)) == multiset{x} + multiset(t)
    decreases |t|
  {
    if t != [] && t[0].totalDelay > x.totalDelay {
      InsertPermutes(x, t[1..]);
      assert t == [t[0]] + t[1..];
    }
  }

  lemma {:induction false} InsertSorts(x: EmployeeRow, t: seq<EmployeeRow>)
    requires SortedByDelay(t)
    ensures SortedByDelay(Insert(x, t))
    decreases |t|
  {
    if t != [] && t[0].totalDelay > x.totalDelay {
      InsertSorts(x, t[1..]);
      InsertPermutes(x, t[1..]);
      var r := Insert(x, t);
      var rest := Insert(x, t[1..]);
      assert r == [t[0]] + rest;
      forall j | 0 < j < |r|
        ensures r[0].totalDelay >= r[j].totalDelay
      {
        assert r[j] in multiset(rest);
        assert r[j] == x || r[j] in t[1..];
      }
    }
  }

  lemma {:induction false} SortPermutes(s: seq<EmployeeRow>)
    ensures multiset(SortByDelay(s)) == multiset(s)
    decreases |s|
  {
    if s != [] {
      SortPermutes(s[1..]);
      InsertPermutes(s[0], SortByDelay(s[1..]));
      assert s == [s[0]] + s[1..];
    }
  }

  lemma {:induction false} SortSorts(s: seq<EmployeeRow>)
    ensures SortedByDelay(SortByDelay(s))
    decreases |s|
  {
    if s != [] {
      SortSorts(s[1..]);
      InsertSorts(s[0], SortByDelay(s[1..]));
    }
  }

  /** Inserting keeps the rows of every delay in their order. */
  lemma {:induction false} InsertStable(x: EmployeeRow, t: seq<EmployeeRow>, k: int)
    ensures Filter(Insert(x, t), (r: EmployeeRow) => r.totalDelay == k)
         == Filter([x] + t, (r: EmployeeRow) => r.totalDelay == k)
    decreases |t|
  {
    var p := (r: EmployeeRow) => r.totalDelay == k;
    if t != [] && t[0].totalDelay > x.totalDelay {
      InsertStable(x, t[1..], k);
      FilterConcat([t[0]], Insert(x, t[1..]), p);
      FilterConcat([x], t[1..], p);
      FilterConcat([x], t, p);
      FilterConcat([t[0]], t[1..], p);
      assert [t[0]] + t[1..] == t;
    }
  }

  /** The sort is stable: rows with equal total delays keep their order. */
  lemma {:induction false} SortStable(s: seq<EmployeeRow>, k: int)
    ensures Filter(SortByDelay(s), (r: EmployeeRow) => r.totalDelay == k)
         == Filter(s, (r: EmployeeRow) => r.totalDelay == k)
    decreases |s|
  {
    if s != [] {
      var p := (r: EmployeeRow) => r.totalDelay == k;
      SortStable(s[1..], k);
      InsertStable(s[0], SortByDelay(s[1..]), k);
      FilterConcat([s[0]], SortByDelay(s[1..]), p);
      FilterConcat([s[0]], s[1..], p);
      assert [s[0]] + s[1..] == s;
    }
  }

  // -------------------------------------------------------------- per day

  /** An entry enters the chart when it has a completion date and a positive
      delay. */
  predicate Counted(r: DelayReport) {
    r.completionDate.Some? && r.delayTime.Some? && r.delayTime.value > 0
  }

  /** The accumulator after one entry; `dateOf` is `toLocaleDateString` on
      the completion date. */
  function AddEntry(acc: map<string, int>, r: DelayReport, dateOf: int -> string): map<string, int> {
    if !Counted(r) then acc
    else
      var date := dateOf(r.completionDate.value);
      acc[date := (if date in acc then acc[date] else 0) + r.delayTime.value]
  }

  /** The `reduce` into the per-day accumulator, left to right. */
  function DelaySums(report: seq<DelayReport>, dateOf: int -> string): map<string, int>
    decreases |report|
  {
    if report == [] then map[]
    else AddEntry(DelaySums(report[..|report| - 1], dateOf), report[|report| - 1], dateOf)
  }

  /** The delay counted for `date`, summed independently of any map. */
  function DelayOn(report: seq<DelayReport>, date: string, dateOf: int -> string): int
    decreases |report|
  {
    if report == [] then 0
    else
      var r := report[|report| - 1];
      DelayOn(report[..|report| - 1], date, dateOf)
      + (if Counted(r) && dateOf(r.completionDate.value) == date then r.delayTime.value else 0)
  }

  /** A day is charted exactly when some positive delay was completed on it,
      and its value is the sum of those delays. */
  lemma {:induction false} DelaySumsSpec(report: seq<DelayReport>, dateOf: int -> string, date: string)
    ensures date in DelaySums(report, dateOf) <==> DelayOn(report, date, dateOf) > 0
    ensures date in DelaySums(report, dateOf) ==> DelaySums(report, dateOf)[date] == DelayOn(report, date, dateOf)
    ensures DelayOn(report, date, dateOf) >= 0
    decreases |report|
  {
    if report != [] {
      DelaySumsSpec(report[..|report| - 1], dateOf, date);
    }
  }

  /** `delaysByDate`, as the source writes it: a loop that adds each counted
      entry into the accumulator in place. */
  method DelaysByDate(report: seq<DelayReport>, dateOf: int -> string) returns (acc: map<string, int>)
    ensures acc == DelaySums(report, dateOf)
  {
    acc := map[];
    var i := 0;
    while i < |report|
      invariant 0 <= i <= |report|
      invariant acc == DelaySums(report[..i], dateOf)
    {
      var r := report[i];
      assert report[..i + 1][..i] == report[..i];
      if r.completionDate.Some? && r.delayTime.Some? && r.delayTime.value > 0 {
        var date := dateOf(r.completionDate.value);
        if date !in acc {
          acc := acc[date := 0];
        }
        acc := acc[date := acc[date] + r.delayTime.value];
      }
      i := i + 1;
    }
    assert report[..i] == report;
  }

  /** The dates of the counted entries in report order, with repeats. */
  function CountedDates(report: seq<DelayReport>, dateOf: int -> string): seq<string>
    decreases |report|
  {
    if report == [] then []
    else
      var r := report[|report| - 1];
      CountedDates(report[..|report| - 1], dateOf) + (if Counted(r) then [dateOf(r.completionDate.value)] else [])
  }

  /** A date is a key of the accumulator exactly when some counted entry
      falls on it. */
  lemma {:induction false} CountedDatesKeys(report: seq<DelayReport>, dateOf: int -> string)
    ensures forall d :: d in CountedDates(report, dateOf) <==> d in DelaySums(report, dateOf)
    decreases |report|
  {
    if report != [] {
      CountedDatesKeys(report[..|report| - 1], dateOf);
    }
  }

  /** `chartData`: `Object.entries` of the accumulator, one bar per day in
      the order the day was first written into it, each with its total
      (`Math.round` of a whole number of minutes is that number). */
  function ChartData(report: seq<DelayReport>, dateOf: int -> string): seq<(string, int)> {
    var sums := DelaySums(report, dateOf);
    var dates := Dedup(CountedDates(report, dateOf));
    CountedDatesKeys(report, dateOf);
    DedupSpec(CountedDates(report, dateOf));
    seq(|dates|, i requires 0 <= i < |dates| => (dates[i], sums[dates[i]]))
  }

  /** The chart has one bar per day with a positive counted delay and no
      other, no day twice, each bar the day's total, and the days in order
      of their first counted entry. */
  lemma ChartDataSpec(report: seq<DelayReport>, dateOf: int -> string)
    ensures var bars := ChartData(report, dateOf);
            && (forall i, j :: 0 <= i < j < |bars| ==> bars[i].0 != bars[j].0)
            && (forall d :: (exists i :: 0 <= i < |bars| && bars[i].0 == d) <==> DelayOn(report, d, dateOf) > 0)
            && (forall i :: 0 <= i < |bars| ==> bars[i].1 == DelayOn(report, bars[i].0, dateOf))
            && (forall i :: 0 <= i < |bars| ==> bars[i].0 in CountedDates(report, dateOf))
            && (forall i, j :: 0 <= i < j < |bars| ==>
                  FirstIndex(CountedDates(report, dateOf), bars[i].0) < FirstIndex(CountedDates(report, dateOf), bars[j].0))
  {
    var bars := ChartData(report, dateOf);
    var ds := CountedDates(report, dateOf);
    var dates := Dedup(ds);
    CountedDatesKeys(report, dateOf);
    DedupSpec(ds);
    assert |bars| == |dates| && forall i :: 0 <= i < |bars| ==> bars[i].0 == dates[i];
    forall d
      ensures (exists i :: 0 <= i < |bars| && bars[i].0 == d) <==> DelayOn(report, d, dateOf) > 0
    {
      DelaySumsSpec(report, dateOf, d);
      if d in dates {
        var i :| 0 <= i < |dates| && dates[i] == d;
        assert bars[i].0 == d;
      }
    }
    forall i | 0 <= i < |bars|
      ensures bars[i].1 == DelayOn(report, bars[i].0, dateOf)
    {
      DelaySumsSpec(report, dateOf, dates[i]);
    }
  }

  // ---------------------------------------------------------- formatting

  /** `Math.round`: halves go up. */
  function Round(x: real): int {
    (x + 0.5).Floor
  }

  /** `Math.trunc` */
  function Trunc(x: real): int {
    if x >= 0.0 then x.Floor else -((-x).Floor)
  }

  /** JavaScript `a % b` on numbers: the remainder takes the sign of `a`. */
  function RealRem(a: real, b: real): real
    requires b != 0.0
  {
    a - b * Trunc(a / b) as real
  }

  /** `s.charAt(0)` */
  function FirstLetter(s: string): string {
    if s == "" then "" else s[..1]
  }

  /** `formatMinutes` as written: whole hours by `Math.floor`, then the
      remainder rounded; `hoursWord` and `minutesWord` are the translations
      whose first letters are the units. */
  function FormatMinutesAsWritten(minutes: real, hoursWord: string, minutesWord: string): string {
    var hours := (minutes / 60.0).Floor;
    var mins := Round(RealRem(minutes, 60.0));
    if hours > 0 then IntToString(hours) + FirstLetter(hoursWord) + " " + IntToString(mins) + FirstLetter(minutesWord)
    else IntToString(mins) + FirstLetter(minutesWord)
  }

  /** Rounding after splitting can give 60 minutes: an average of 119.5
      minutes shows as "1h 60m". */
  lemma FormatMinutesSixtyMinutes()
    ensures FormatMinutesAsWritten(119.5, "hours", "minutes") == "1h 60m"
  {
    assert (119.5 / 60.0).Floor == 1 by {
      assert 1.0 <= 119.5 / 60.0 < 2.0;
    }
    assert Trunc(119.5 / 60.0) == 1;
    assert RealRem(119.5, 60.0) == 59.5;
    assert Round(59.5) == 60;
    assert NatToString(60) == "60" by {
      assert NatToString(6) == "6";
    }
  }

  /** `formatMinutes` with the rounding done first, so the minutes part is
      always below an hour. */
  function FormatMinutes(minutes: real, hoursWord: string, minutesWord: string): string {
    FormatMinutesAsWritten(Round(minutes) as real, hoursWord, minutesWord)
  }

  /** A whole, non-negative number of minutes shows its hours, when there are
      any, and the minutes left over. */
  lemma FormatWholeMinutes(n: nat, hoursWord: string, minutesWord: string)
    ensures n >= 60 ==>
              FormatMinutesAsWritten(n as real, hoursWord, minutesWord)
              == NatToString(n / 60) + FirstLetter(hoursWord) + " " + NatToString(n % 60) + FirstLetter(minutesWord)
    ensures n < 60 ==>
              FormatMinutesAsWritten(n as real, hoursWord, minutesWord) == NatToString(n) + FirstLetter(minutesWord)
  {
    WholeParts(n);
  }

  lemma WholeParts(n: nat)
    ensures (n as real / 60.0).Floor == n / 60
    ensures Round(RealRem(n as real, 60.0)) == n % 60
  {
    var q, r := n / 60, n % 60;
    assert n as real == 60.0 * q as real + r as real;
    var x := n as real / 60.0;
    assert x == q as real + r as real / 60.0;
    FloorOf(x, q);
    assert Trunc(x) == q;
    assert RealRem(n as real, 60.0) == r as real;
    FloorOf(r as real + 0.5, r);
  }

  lemma FloorOf(x: real, k: int)
    requires k as real <= x < k as real + 1.0
    ensures x.Floor == k
  {
  }

  /** The corrected text of a non-negative time reads back as the rounded
      minutes, with fewer than 60 in the minutes part. */
  lemma FormatMinutesCorrected(minutes: real, hoursWord: string, minutesWord: string)
    requires minutes >= 0.0
    ensures var n := Round(minutes);
            n >= 0
            && (n >= 60 ==>
                  FormatMinutes(minutes, hoursWord, minutesWord)
                  == NatToString(n / 60) + FirstLetter(hoursWord) + " " + NatToString(n % 60) + FirstLetter(minutesWord))
            && (n < 60 ==> FormatMinutes(minutes, hoursWord, minutesWord) == NatToString(n) + FirstLetter(minutesWord))
            && n % 60 < 60
  {
    FormatWholeMinutes(Round(minutes), hoursWord, minutesWord);
  }

  /** The correction changes nothing for whole minutes, so the total-delay
      column, always whole, reads the same either way. */
  lemma CorrectionKeepsWholeMinutes(k: int, hoursWord: string, minutesWord: string)
    ensures FormatMinutes(k as real, hoursWord, minutesWord) == FormatMinutesAsWritten(k as real, hoursWord, minutesWord)
  {
    assert Round(k as real) == k;
  }

  /** The corrected text of 119.5 minutes. */
  lemma FormatMinutesTwoHours()
    ensures FormatMinutes(119.5, "hours", "minutes") == "2h 0m"
  {
    assert Round(119.5) == 120;
    FormatWholeMinutes(120, "hours", "minutes");
    assert NatToString(2) == "2" && NatToString(0) == "0";
  }

  // ------------------------------------------------------------------ view

  datatype View = NoData | Report(rows: seq<EmployeeRow>, chart: seq<(string, int)>)

  /** What the report renders. */
  function ViewOf(staff: seq<StaffMember>, report: Option<seq<DelayReport>>, dateOf: int -> string): (v: View)
    ensures v.NoData? <==> ShowsNoData(report)
    ensures v.Report? ==>
              v.rows == DelayByEmployee(staff, report.value) && v.chart == ChartData(report.value, dateOf)
  {
    if ShowsNoData(report) then NoData
    else Report(DelayByEmployee(staff, report.value), ChartData(report.value, dateOf))
  }
}
