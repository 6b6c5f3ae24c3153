/** The countdown/overtime timer of an in-progress task
    (src/components/countdown/TaskTimer.tsx). The component's four state
    variables are a `TimerState`; each effect and handler is a function on it,
    and the class `TaskTimer` holds the state and applies them. The one-second
    interval is modelled as explicit calls of `Step`; the clock is the
    parameter `nowMs`. */
module TaskTimer {
  import opened Common

  datatype TimerState = TimerState(
    timeLeft: int,         // timeLeftSeconds
    running: bool,         // isRunning
    overtime: bool,        // isOvertime
    overtimeSeconds: int)  // overtimeSeconds

  /** `Math.floor((now - start) / 1000)` for instants in milliseconds. */
  function ElapsedSeconds(startMs: int, nowMs: int): int {
    (nowMs - startMs) / 1000
  }

  /** The state before any effect has run (the `useState` initialisers). */
  function Initial(allowedTime: int, startTime: Option<int>, isWithinShift: bool): (s: TimerState)
    ensures s.timeLeft == allowedTime * 60 && !s.overtime && s.overtimeSeconds == 0
    ensures s.running <==> startTime.Some? && isWithinShift
  {
    TimerState(allowedTime * 60, startTime.Some? && isWithinShift, false, 0)
  }

  /** The effect that accounts for the time already spent, AS WRITTEN: it
      enters overtime only when the elapsed time strictly exceeds the
      allowance. */
  function StartEffectAsWritten(s: TimerState, allowedTime: int, startTime: Option<int>, nowMs: int): (r: TimerState)
    ensures startTime.None? ==> r == s
    ensures r.running == s.running
  {
    match startTime
    case None => s
    case Some(start) =>
      var elapsed := ElapsedSeconds(start, nowMs);
      if elapsed > allowedTime * 60 then
        s.(timeLeft := 0, overtime := true, overtimeSeconds := elapsed - allowedTime * 60)
      else
        s.(timeLeft := allowedTime * 60 - elapsed)
  }

  /** The same effect with the evidently intended boundary: a task whose
      allowance is used up exactly is in overtime, by zero seconds. */
  function StartEffect(s: TimerState, allowedTime: int, startTime: Option<int>, nowMs: int): (r: TimerState)
    ensures startTime.None? ==> r == s
    ensures r.running == s.running
  {
    match startTime
    case None => s
    case Some(start) =>
      var elapsed := ElapsedSeconds(start, nowMs);
      if elapsed >= allowedTime * 60 then
        s.(timeLeft := 0, overtime := true, overtimeSeconds := elapsed - allowedTime * 60)
      else
        s.(timeLeft := allowedTime * 60 - elapsed)
  }

  /** The state right after mounting with the corrected boundary. */
  function Mount(allowedTime: int, startTime: Option<int>, nowMs: int, isWithinShift: bool): TimerState {
    StartEffect(Initial(allowedTime, startTime, isWithinShift), allowedTime, startTime, nowMs)
  }

  /** The state right after mounting: the initial state and the start
      effect as written. */
  function MountAsWritten(allowedTime: int, startTime: Option<int>, nowMs: int, isWithinShift: bool): TimerState {
    StartEffectAsWritten(Initial(allowedTime, startTime, isWithinShift), allowedTime, startTime, nowMs)
  }

  /** One firing of the one-second interval. The interval exists only while
      the timer runs inside the shift; counting down from 1 enters overtime;
      in overtime the overtime counter grows. */
  function Step(s: TimerState, isWithinShift: bool): (r: TimerState)
    ensures !(s.running && isWithinShift) ==> r == s
    ensures r.running == s.running
    ensures s.overtime ==> r.overtime && r.timeLeft == s.timeLeft
    ensures r.overtimeSeconds >= s.overtimeSeconds
    ensures r.timeLeft <= s.timeLeft
    ensures !s.overtime ==> (r.overtime <==> s.running && isWithinShift && s.timeLeft == 1)
  {
    if s.running && isWithinShift then
      if !s.overtime && s.timeLeft > 0 then
        s.(timeLeft := s.timeLeft - 1, overtime := s.timeLeft == 1)
      else if s.overtime then
        s.(overtimeSeconds := s.overtimeSeconds + 1)
      else
        s
    else
      s
  }

  /** The effect that pauses the timer when the shift ends. */
  function ShiftEffect(s: TimerState, isWithinShift: bool): (r: TimerState)
    ensures !isWithinShift ==> !r.running
    ensures isWithinShift ==> r == s
    ensures r == s.(running := r.running)
    ensures r.running ==> s.running
  {
    if !isWithinShift && s.running then s.(running := false) else s
  }

  /** The play/pause button; it is disabled outside the shift. */
  function Toggle(s: TimerState, isWithinShift: bool): (r: TimerState)
    ensures isWithinShift ==> r == s.(running := !s.running)
    ensures !isWithinShift ==> r == s
  {
    if isWithinShift then s.(running := !s.running) else s
  }

  /** One second of wall-clock time with the given shift flag: the shift
      effect runs, then the interval (if any) fires. */
  function Second(s: TimerState, isWithinShift: bool): TimerState {
    Step(ShiftEffect(s, isWithinShift), isWithinShift)
  }

  /** A sequence of seconds, one shift flag each, with no button presses. */
  function Run(s: TimerState, shifts: seq<bool>): TimerState
    decreases |shifts|
  {
    if shifts == [] then s else Run(Second(s, shifts[0]), shifts[1..])
  }

  /** `n` seconds inside the shift. */
  function Ticks(s: TimerState, n: nat): TimerState
    decreases n
  {
    if n == 0 then s else Ticks(Step(s, true), n - 1)
  }

  // ------------------------------------------------------------ properties

  /** Without a start time the timer shows the full allowance, is not in
      overtime and is idle. */
  lemma MountWithoutStart(allowedTime: int, nowMs: int, isWithinShift: bool)
    ensures MountAsWritten(allowedTime, None, nowMs, isWithinShift) == TimerState(allowedTime * 60, false, false, 0)
  {
  }

  /** With a start time the timer runs exactly when the task is in the shift;
      a start strictly further back than the allowance is overtime at once,
      counted retroactively; otherwise the rest of the allowance remains,
      unclamped (a start in the future leaves more than the allowance). A
      start exactly one allowance ago therefore rests at zero, not in
      overtime. */
  lemma MountWithStart(allowedTime: int, start: int, nowMs: int, isWithinShift: bool)
    ensures var s := MountAsWritten(allowedTime, Some(start), nowMs, isWithinShift);
            var e := ElapsedSeconds(start, nowMs);
            && s.running == isWithinShift
            && (e > allowedTime * 60 ==> s.timeLeft == 0 && s.overtime && s.overtimeSeconds == e - allowedTime * 60)
            && (e <= allowedTime * 60 ==> s.timeLeft == allowedTime * 60 - e && !s.overtime && s.overtimeSeconds == 0)
            && (e == allowedTime * 60 ==> s.timeLeft == 0 && !s.overtime)
            && (nowMs < start ==> s.timeLeft > allowedTime * 60)
  {
  }

  /** The same with the corrected boundary: at or past the allowance is
      overtime. */
  lemma MountWithStartCorrected(allowedTime: int, start: int, nowMs: int, isWithinShift: bool)
    ensures var s := Mount(allowedTime, Some(start), nowMs, isWithinShift);
            var e := ElapsedSeconds(start, nowMs);
            && s.running == isWithinShift
            && (e >= allowedTime * 60 ==> s.timeLeft == 0 && s.overtime && s.overtimeSeconds == e - allowedTime * 60)
            && (e < allowedTime * 60 ==> s.timeLeft == allowedTime * 60 - e && !s.overtime && s.overtimeSeconds == 0)
  {
  }

  /** The timer's display agrees with the wall clock: the remaining time plus
      the elapsed time is the allowance, or, in overtime, the overtime counter
      is the elapsed time beyond the allowance. */
  ghost predicate Accounts(s: TimerState, allowance: int, elapsed: int) {
    if s.overtime then s.timeLeft == 0 && s.overtimeSeconds == elapsed - allowance
    else s.timeLeft == allowance - elapsed && s.overtimeSeconds == 0
  }

  /** A started timer that never rests at zero outside overtime, which the
      countdown needs to reach overtime. */
  ghost predicate Live(s: TimerState) {
    s.timeLeft == 0 ==> s.overtime
  }

  /** As written the mounted timer agrees with the clock, and it is live
      exactly when the elapsed time is not the allowance itself. */
  lemma MountAccounts(allowedTime: int, start: int, nowMs: int, isWithinShift: bool)
    requires allowedTime >= 0
    ensures var s := MountAsWritten(allowedTime, Some(start), nowMs, isWithinShift);
            Accounts(s, allowedTime * 60, ElapsedSeconds(start, nowMs))
            && (Live(s) <==> ElapsedSeconds(start, nowMs) != allowedTime * 60)
  {
  }

  /** With the corrected boundary the mounted timer is always live. */
  lemma MountAccountsCorrected(allowedTime: int, start: int, nowMs: int, isWithinShift: bool)
    requires allowedTime >= 0
    ensures var s := Mount(allowedTime, Some(start), nowMs, isWithinShift);
            Accounts(s, allowedTime * 60, ElapsedSeconds(start, nowMs)) && Live(s)
  {
  }

  /** Every in-shift second keeps the display in step with the clock. */
  lemma {:induction false} TicksAccount(s: TimerState, allowance: int, elapsed: int, n: nat)
    requires s.running && Accounts(s, allowance, elapsed) && Live(s) && !(s.timeLeft < 0)
    ensures var t := Ticks(s, n);
            Accounts(t, allowance, elapsed + n) && Live(t) && t.running && t.timeLeft >= 0
    decreases n
  {
    if n > 0 {
      TicksAccount(Step(s, true), allowance, elapsed + 1, n - 1);
    }
  }

  /** Counting down from `r` seconds: after `r` seconds the timer enters
      overtime (exactly once, at the zero crossing), and every further second
      adds one to the overtime counter. */
  lemma {:induction false} CountdownThenOvertime(s: TimerState, k: nat)
    requires s.running && !s.overtime && s.timeLeft > 0
    ensures Ticks(s, s.timeLeft + k) == s.(timeLeft := 0, overtime := true, overtimeSeconds := s.overtimeSeconds + k)
    decreases s.timeLeft
  {
    if s.timeLeft == 1 {
      OvertimeTicks(Step(s, true), k);
    } else {
      CountdownThenOvertime(Step(s, true), k);
    }
  }

  lemma {:induction false} OvertimeTicks(s: TimerState, k: nat)
    requires s.running && s.overtime
    ensures Ticks(s, k) == s.(overtimeSeconds := s.overtimeSeconds + k)
    decreases k
  {
    if k > 0 {
      OvertimeTicks(Step(s, true), k - 1);
    }
  }

  /** Overtime is one-way and the overtime counter never decreases, over any
      run of seconds. */
  lemma {:induction false} RunMonotone(s: TimerState, shifts: seq<bool>)
    ensures s.overtime ==> Run(s, shifts).overtime
    ensures Run(s, shifts).overtimeSeconds >= s.overtimeSeconds
    ensures Run(s, shifts).running ==> s.running
    decreases |shifts|
  {
    if shifts != [] {
      RunMonotone(Second(s, shifts[0]), shifts[1..]);
    }
  }

  /** A paused timer stays exactly as it is, whatever the shift does: leaving
      the shift clears the running flag and nothing but the button sets it
      again, so the counters stay frozen across a shift boundary. */
  lemma {:induction false} PausedStaysFrozen(s: TimerState, shifts: seq<bool>)
    requires !s.running
    ensures Run(s, shifts) == s
    decreases |shifts|
  {
    if shifts != [] {
      PausedStaysFrozen(Second(s, shifts[0]), shifts[1..]);
    }
  }

  /** An out-of-shift second pauses the timer and changes nothing else. */
  lemma OutOfShiftSecond(s: TimerState)
    ensures Second(s, false) == s.(running := false)
  {
  }

  // --------------------------------------------------------------- display

  /** JavaScript `a % b` for a positive divisor: the remainder takes the sign
      of the dividend. */
  function JsRem(a: int, b: int): (r: int)
    requires b > 0
    ensures a >= 0 ==> r == a % b
    ensures -b < r < b
  {
    if a >= 0 then a % b else -((-a) % b)
  }

  /** `formatTime`: hours, minutes and seconds, each padded to two digits. */
  function FormatTime(seconds: int): string {
    var hrs := seconds / 3600;
    var mins := JsRem(seconds, 3600) / 60;
    var secs := JsRem(seconds, 60);
    Pad2(hrs) + ":" + Pad2(mins) + ":" + Pad2(secs)
  }

  /** Reads an `H:MM:SS` display back into seconds. */
  function ClockSeconds(t: string): Option<int> {
    FieldsSeconds(Split(t, ':'))
  }

  function FieldsSeconds(parts: seq<string>): Option<int> {
    if |parts| == 3 && AllDigits(parts[0]) && AllDigits(parts[1]) && AllDigits(parts[2])
    then Some(DigitsValue(parts[0]) * 3600 + DigitsValue(parts[1]) * 60 + DigitsValue(parts[2]))
    else None
  }

  /** `k * 60 + r` leaves the remainder of `r` modulo 60. */
  lemma ModShift(k: nat, r: nat)
    ensures (k * 60 + r) % 60 == r % 60
  {
    var q := r / 60;
    assert r == q * 60 + r % 60;
    assert k * 60 + r == (k + q) * 60 + r % 60;
  }

  /** Hours, minutes and seconds put together give the number back. */
  lemma HmsParts(seconds: nat)
    ensures (seconds / 3600) * 3600 + ((seconds % 3600) / 60) * 60 + seconds % 60 == seconds
    ensures (seconds % 3600) / 60 < 60 && seconds % 60 < 60
  {
    var q, r := seconds / 3600, seconds % 3600;
    assert seconds == q * 3600 + r;
    assert r == (r / 60) * 60 + r % 60;
    assert q * 3600 == (q * 60) * 60;
    ModShift(q * 60, r);
  }

  lemma FormatTimeFields(seconds: nat)
    ensures FormatTime(seconds) == Pad2(seconds / 3600) + ":" + Pad2((seconds % 3600) / 60) + ":" + Pad2(seconds % 60)
  {
  }

  /** The display of a non-negative number of seconds has minutes and
      seconds fields exactly two digits wide and an hours field (not capped)
      at least two wide. */
  lemma FormatTimeWidths(seconds: nat)
    ensures |FormatTime(seconds)| >= 8
    ensures FormatTime(seconds)[|FormatTime(seconds)| - 3] == ':'
    ensures FormatTime(seconds)[|FormatTime(seconds)| - 6] == ':'
  {
    HmsParts(seconds);
    FormatTimeFields(seconds);
    WidthsOf(FormatTime(seconds), seconds / 3600, (seconds % 3600) / 60, seconds % 60);
  }

  lemma WidthsOf(t: string, hrs: nat, mins: nat, secs: nat)
    requires t == Pad2(hrs) + ":" + Pad2(mins) + ":" + Pad2(secs)
    requires mins < 60 && secs < 60
    ensures |t| >= 8 && t[|t| - 3] == ':' && t[|t| - 6] == ':'
  {
    Pad2AtLeastTwo(hrs);
    Pad2Width(mins);
    Pad2Width(secs);
    FieldWidths(t, Pad2(hrs), Pad2(mins), Pad2(secs));
  }

  lemma FieldWidths(t: string, h: string, m: string, c: string)
    requires t == h + ":" + m + ":" + c
    requires |h| >= 2 && |m| == 2 && |c| == 2
    ensures |t| >= 8 && t[|t| - 3] == ':' && t[|t| - 6] == ':'
  {
  }

  /** The display reads back as the same number of seconds. */
  lemma FormatTimeRoundTrip(seconds: nat)
    ensures ClockSeconds(FormatTime(seconds)) == Some(seconds)
  {
    var hrs, mins, secs := seconds / 3600, (seconds % 3600) / 60, seconds % 60;
    HmsParts(seconds);
    FormatTimeFields(seconds);
    Pad2Value(hrs);
    Pad2Value(mins);
    Pad2Value(secs);
    var h, m, c := Pad2(hrs), Pad2(mins), Pad2(secs);
    ReadBack(FormatTime(seconds), h, m, c, hrs, mins, secs, seconds);
  }

  /** A display made of three digit fields reads back as the seconds they
      denote. */
  lemma ReadBack(t: string, h: string, m: string, c: string, hrs: nat, mins: nat, secs: nat, total: int)
    requires t == h + ":" + m + ":" + c
    requires AllDigits(h) && AllDigits(m) && AllDigits(c)
    requires ':' !in h && ':' !in m && ':' !in c
    requires DigitsValue(h) == hrs && DigitsValue(m) == mins && DigitsValue(c) == secs
    requires hrs * 3600 + mins * 60 + secs == total
    ensures ClockSeconds(t) == Some(total)
  {
    SplitThree(h, m, c);
    FieldsOfThree([h, m, c], hrs, mins, secs, total);
  }

  lemma FieldsOfThree(parts: seq<string>, hrs: nat, mins: nat, secs: nat, total: int)
    requires |parts| == 3 && AllDigits(parts[0]) && AllDigits(parts[1]) && AllDigits(parts[2])
    requires DigitsValue(parts[0]) == hrs && DigitsValue(parts[1]) == mins && DigitsValue(parts[2]) == secs
    requires hrs * 3600 + mins * 60 + secs == total
    ensures FieldsSeconds(parts) == Some(total)
  {
  }

  lemma SplitThree(h: string, m: string, s: string)
    requires ':' !in h && ':' !in m && ':' !in s
    ensures Split(h + ":" + m + ":" + s, ':') == [h, m, s]
  {
    assert h + ":" + m + ":" + s == h + [':'] + (m + [':'] + s);
    SplitAfterField(m, s, ':');
    SplitNoSep(s, ':');
    assert Split(m + [':'] + s, ':') == [m, s];
    SplitAfterField(h, m + [':'] + s, ':');
  }

  /** Two natural numbers of seconds with the same display are equal. */
  lemma FormatTimeInjective(a: nat, b: nat)
    requires FormatTime(a) == FormatTime(b)
    ensures a == b
  {
    FormatTimeRoundTrip(a);
    FormatTimeRoundTrip(b);
  }

  lemma FormatTimeOf(seconds: nat, hrs: nat, mins: nat, secs: nat)
    requires hrs == seconds / 3600 && mins == (seconds % 3600) / 60 && secs == seconds % 60
    ensures FormatTime(seconds) == Pad2(hrs) + ":" + Pad2(mins) + ":" + Pad2(secs)
  {
    FormatTimeFields(seconds);
  }

  /** Sample displays: zero, one second, half an hour, an hour and a bit. */
  lemma FormatTimeExamples()
    ensures FormatTime(0) == "00:00:00"
    ensures FormatTime(1) == "00:00:01"
    ensures FormatTime(1800) == "00:30:00"
    ensures FormatTime(3661) == "01:01:01"
  {
    ShowsZero(0);
    ShowsOneSecond(1);
    ShowsHalfHour(1800);
    ShowsHourMinuteSecond(3661);
  }

  lemma ShowsZero(n: nat)
    requires n == 0
    ensures FormatTime(n) == "00:00:00"
  {
    ExampleArithmetic();
    FormatTimeOf(n, 0, 0, 0);
    Pad2Small(0);
  }

  lemma ShowsOneSecond(n: nat)
    requires n == 1
    ensures FormatTime(n) == "00:00:01"
  {
    ExampleArithmetic();
    FormatTimeOf(n, 0, 0, 1);
    Pad2Small(0);
    Pad2Small(1);
  }

  lemma ShowsHalfHour(n: nat)
    requires n == 1800
    ensures FormatTime(n) == "00:30:00"
  {
    ExampleArithmetic();
    FormatTimeOf(n, 0, 30, 0);
    Pad2Small(0);
    Pad2Two(30);
    var z, t := Pad2(0), Pad2(30);
    assert 30 / 10 == 3 && 30 % 10 == 0;
    assert DigitChar(3) == '3' && DigitChar(0) == '0';
    assert z == "00" && t == "30";
    HalfHourText(z, t);
  }

  lemma ShowsHourMinuteSecond(n: nat)
    requires n == 3661
    ensures FormatTime(n) == "01:01:01"
  {
    ExampleArithmetic();
    FormatTimeOf(n, 1, 1, 1);
    Pad2Small(1);
  }

  lemma HalfHourText(z: string, t: string)
    requires z == "00" && t == "30"
    ensures z + ":" + t + ":" + z == "00:30:00"
  {
  }

  lemma ExampleArithmetic()
    ensures 0 / 3600 == 0 && (0 % 3600) / 60 == 0 && 0 % 60 == 0
    ensures 1 / 3600 == 0 && (1 % 3600) / 60 == 0 && 1 % 60 == 1
    ensures 1800 / 3600 == 0 && (1800 % 3600) / 60 == 30 && 1800 % 60 == 0
    ensures 3661 / 3600 == 1 && (3661 % 3600) / 60 == 1 && 3661 % 60 == 1
  {
  }

  /** The worked scenario: a 30-minute allowance started 30 minutes and one
      second ago (all inside the shift) shows overtime 00:00:01. */
  lemma ThirtyMinuteScenario(start: int)
    ensures var s := Ticks(MountAsWritten(30, Some(start), start, true), 1801);
            s.overtime && FormatTime(s.overtimeSeconds) == "00:00:01"
  {
    var s0 := MountAsWritten(30, Some(start), start, true);
    assert s0 == TimerState(1800, true, false, 0);
    CountdownThenOvertime(s0, 1);
    ShowsOneSecond(1);
  }

  // ------------------------------------------------- the boundary as written

  /** As written, a start exactly one allowance ago leaves the timer at zero
      but not in overtime, and from then on no in-shift second changes it:
      the display freezes at 00:00:00 and overtime is never reached. */
  lemma {:induction false} ExactAllowanceStallsAsWritten(allowedTime: int, start: int, n: nat)
    ensures var s := MountAsWritten(allowedTime, Some(start), start + allowedTime * 60 * 1000, true);
            && s.timeLeft == 0 && !s.overtime && s.running
            && Ticks(s, n) == s
  {
    var s := MountAsWritten(allowedTime, Some(start), start + allowedTime * 60 * 1000, true);
    assert ElapsedSeconds(start, start + allowedTime * 60 * 1000) == allowedTime * 60;
    StalledTicks(s, n);
  }

  lemma {:induction false} StalledTicks(s: TimerState, n: nat)
    requires s.timeLeft == 0 && !s.overtime
    ensures Ticks(s, n) == s
    decreases n
  {
    if n > 0 {
      StalledTicks(Step(s, true), n - 1);
    }
  }

  /** With the corrected boundary the same start is overtime by zero seconds
      and then counts up one per in-shift second. */
  lemma ExactAllowanceCorrected(allowedTime: int, start: int, n: nat)
    ensures var s := Mount(allowedTime, Some(start), start + allowedTime * 60 * 1000, true);
            && s.timeLeft == 0 && s.overtime && s.overtimeSeconds == 0
            && Ticks(s, n).overtimeSeconds == n
  {
    var s := Mount(allowedTime, Some(start), start + allowedTime * 60 * 1000, true);
    assert ElapsedSeconds(start, start + allowedTime * 60 * 1000) == allowedTime * 60;
    OvertimeTicks(s, n);
  }

  // ------------------------------------------------------------ the widget

  /** The mounted widget. Its fields are the component's state variables. */
  class TaskTimer {
    var allowedTime: int
    var timeLeftSeconds: int
    var isRunning: bool
    var isOvertime: bool
    var overtimeSeconds: int

    function State(): TimerState
      reads this
    {
      TimerState(timeLeftSeconds, isRunning, isOvertime, overtimeSeconds)
    }

    constructor (allowedTime: int, startTime: Option<int>, nowMs: int, isWithinShift: bool)
      ensures this.allowedTime == allowedTime
      ensures State() == MountAsWritten(allowedTime, startTime, nowMs, isWithinShift)
    {
      this.allowedTime := allowedTime;
      timeLeftSeconds := allowedTime * 60;
      isRunning := startTime.Some? && isWithinShift;
      isOvertime := false;
      overtimeSeconds := 0;
      new;
      StartTimeChanged(allowedTime, startTime, nowMs);
    }

    /** The start effect re-running after `startTime` or `allowedTime`
        changed, with the source's strict boundary; the running flag is
        kept. */
    method StartTimeChanged(allowedTime: int, startTime: Option<int>, nowMs: int)
      modifies this
      ensures this.allowedTime == allowedTime
      ensures State() == StartEffectAsWritten(old(State()), allowedTime, startTime, nowMs)
    {
      this.allowedTime := allowedTime;
      if startTime.Some? {
        var elapsed := ElapsedSeconds(startTime.value, nowMs);
        if elapsed > allowedTime * 60 {
          timeLeftSeconds := 0;
          isOvertime := true;
          overtimeSeconds := elapsed - allowedTime * 60;
        } else {
          timeLeftSeconds := allowedTime * 60 - elapsed;
        }
      }
    }

    method Tick(isWithinShift: bool)
      modifies this
      ensures allowedTime == old(allowedTime)
      ensures State() == Step(old(State()), isWithinShift)
    {
      if isRunning && isWithinShift {
        if !isOvertime && timeLeftSeconds > 0 {
          if timeLeftSeconds == 1 {
            isOvertime := true;
          }
          timeLeftSeconds := timeLeftSeconds - 1;
        } else if isOvertime {
          overtimeSeconds := overtimeSeconds + 1;
        }
      }
    }

    method ShiftChanged(isWithinShift: bool)
      modifies this
      ensures allowedTime == old(allowedTime)
      ensures State() == ShiftEffect(old(State()), isWithinShift)
    {
      if !isWithinShift && isRunning {
        isRunning := false;
      }
    }

    method ToggleRunning(isWithinShift: bool)
      modifies this
      ensures allowedTime == old(allowedTime)
      ensures State() == Toggle(old(State()), isWithinShift)
    {
      if isWithinShift {
        isRunning := !isRunning;
      }
    }

    /** What the widget shows: the overtime label and counter in overtime,
        the remaining time otherwise. */
    method Display() returns (overtimeLabel: bool, text: string)
      ensures overtimeLabel == isOvertime
      ensures text == FormatTime(if isOvertime then overtimeSeconds else timeLeftSeconds)
    {
      overtimeLabel := isOvertime;
      text := FormatTime(if isOvertime then overtimeSeconds else timeLeftSeconds);
    }
  }
}
