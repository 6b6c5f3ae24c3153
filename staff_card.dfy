/** The card of one staff member (src/components/dashboard/StaffCard.tsx):
    the avatar's initials, the department and days-off lines, the completion
    rate and the role badge. */
module StaffCard {
  import opened Common
  import opened Types
  import PerformanceReport

  /** `.map((n) => n[0]).join("")`: the first character of every part; an
      empty part gives `undefined`, which `join` writes as nothing. */
  function FirstChars(words: seq<string>): string
    decreases |words|
  {
    if words == [] then ""
    else (if words[0] == "" then "" else [words[0][0]]) + FirstChars(words[1..])
  }

  /** The reference reading of the same thing: the characters that are not
      a space and begin a word, that is stand first or right after a space
      (`atStart` says whether the text before `s` ended in a space or was
      empty). */
  function WordStarts(s: string, atStart: bool): (r: string)
    ensures ' ' !in r
    decreases |s|
  {
    if s == [] then ""
    else if s[0] == ' ' then WordStarts(s[1..], true)
    else (if atStart then [s[0]] else "") + WordStarts(s[1..], false)
  }

  /** `getInitials`: the first character of each space-separated word,
      upper-cased, at most two. */
  function Initials(name: string): (r: string)
    ensures |r| <= 2
  {
    var all := ToUpper(FirstChars(Split(name, ' ')));
    if |all| <= 2 then all else all[..2]
  }

  /** The initials are the upper-cased starts of the first two words. */
  lemma InitialsAreWordStarts(name: string)
    ensures var starts := ToUpper(WordStarts(name, true));
            Initials(name) == if |starts| <= 2 then starts else starts[..2]
  {
    SplitFirstChars(name);
  }

  /** The split-map-join chain picks the word starts: over all the parts,
      and over the parts after the first (whose first word is then cut). */
  lemma {:induction false} SplitFirstChars(s: string)
    ensures FirstChars(Split(s, ' ')) == WordStarts(s, true)
    ensures FirstChars(Split(s, ' ')[1..]) == WordStarts(s, false)
    decreases |s|
  {
    if s != [] {
      var rest := Split(s[1..], ' ');
      SplitFirstChars(s[1..]);
      if s[0] == ' ' {
        assert Split(s, ' ') == [""] + rest;
        assert Split(s, ' ')[1..] == rest;
      } else {
        var parts := Split(s, ' ');
        assert parts == [[s[0]] + rest[0]] + rest[1..];
        assert parts[1..] == rest[1..];
        assert FirstChars(parts) == [s[0]] + FirstChars(rest[1..]);
      }
    }
  }

  /** A name without a space gives its first letter, two words give both
      first letters, and an empty name gives nothing. */
  lemma InitialsOfWords(first: string, last: string)
    requires first != "" && last != "" && ' ' !in first && ' ' !in last
    ensures Initials(first) == [UpperChar(first[0])]
    ensures Initials(first + " " + last) == [UpperChar(first[0]), UpperChar(last[0])]
    ensures Initials("") == ""
  {
    SplitNoSep(first, ' ');
    SplitNoSep(last, ' ');
    SplitAfterField(first, last, ' ');
    assert FirstChars([first]) == [first[0]] + FirstChars([]);
    assert Split(first, ' ') == [first];
    assert Split(first + " " + last, ' ') == [first, last];
    assert FirstChars([first, last]) == [first[0]] + FirstChars([last]);
  }

  /** `renderDepartment`: a list is joined with ", ", a single department
      is shown as it is, and a missing one renders as nothing. */
  function DepartmentText(department: Option<TextOrList>): (r: string)
    ensures department == None ==> r == ""
    ensures department.Some? && department.value.Text? ==> r == department.value.text
    ensures department.Some? && department.value.List? ==> r == Join(department.value.parts, ", ")
  {
    match department
    case None => ""
    case Some(Text(t)) => t
    case Some(List(parts)) => Join(parts, ", ")
  }

  /** `renderDaysOff`: "None" when the days off are missing or the empty
      string (both falsy); an array, even an empty one, is joined. */
  function DaysOffText(daysOff: Option<TextOrList>): (r: string)
    ensures daysOff == None || daysOff == Some(Text("")) ==> r == "None"
    ensures daysOff.Some? && daysOff.value.Text? && daysOff.value.text != "" ==> r == daysOff.value.text
    ensures daysOff.Some? && daysOff.value.List? ==> r == Join(daysOff.value.parts, ", ")
  {
    match daysOff
    case None => "None"
    case Some(Text(t)) => if t == "" then "None" else t
    case Some(List(parts)) => Join(parts, ", ")
  }

  /** One day off, on its own or as a one-element list, reads the same. */
  lemma DayOffAlone(day: string)
    requires day != ""
    ensures DaysOffText(Some(List([day]))) == DaysOffText(Some(Text(day))) == day
  {
  }

  /** The rate before rounding, in percent: on-time completions over
      `max(1, completed)`. */
  function RawRate(stats: TaskStats): real {
    var denominator := if stats.tasksCompleted > 1 then stats.tasksCompleted else 1;
    ((stats.tasksCompleted - stats.lateCompletions) as real / denominator as real) * 100.0
  }

  /** The completion rate shown, `Math.round` of the raw rate. */
  function CompletionRate(stats: TaskStats): int {
    PerformanceReport.Round(RawRate(stats))
  }

  /** With no more late completions than completions the rate is a
      percentage; all on time is 100 and no tasks is 0. */
  lemma CompletionRateBounds(stats: TaskStats)
    requires 0 <= stats.lateCompletions <= stats.tasksCompleted
    ensures 0 <= CompletionRate(stats) <= 100
    ensures stats.lateCompletions == 0 && stats.tasksCompleted > 0 ==> CompletionRate(stats) == 100
    ensures stats.tasksCompleted == 0 ==> CompletionRate(stats) == 0
  {
    var c := stats.tasksCompleted;
    var l := stats.lateCompletions;
    var x := RawRate(stats);
    if c == 0 {
      assert x == 0.0;
      PerformanceReport.FloorOf(0.5, 0);
    } else {
      var q := (c - l) as real / c as real;
      assert x == q * 100.0;
      RatioBounds((c - l) as real, c as real);
      assert 0.5 <= x + 0.5 <= 100.5;
      if l == 0 {
        assert q == c as real / c as real;
        RatioBounds(c as real, c as real);
        PerformanceReport.FloorOf(100.5, 100);
      }
    }
  }

  /** A share of a positive whole lies between 0 and 1, and is 1 for the
      whole itself. */
  lemma RatioBounds(part: real, whole: real)
    requires 0.0 <= part <= whole && whole > 0.0
    ensures 0.0 <= part / whole <= 1.0
    ensures part == whole ==> part / whole == 1.0
  {
    var q := part / whole;
    assert q * whole == part;
  }

  datatype BadgeVariant = Default | Secondary | Outline

  /** The role badge: its own look for administrators and for managers, a
      plain outline for every other role. */
  function RoleBadge(role: string): (v: BadgeVariant)
    ensures v == Default <==> role == "admin"
    ensures v == Secondary <==> role == "manager"
  {
    if role == "admin" then Default else if role == "manager" then Secondary else Outline
  }
}
