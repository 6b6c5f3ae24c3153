/** The team page (src/pages/admin/TeamManagement.tsx): a searchable list of
    staff cards, in-place updates from a card, a form that appends a new
    member with defaults, and the total of late completions. */
module TeamManagement {
  import opened Common
  import opened Types
  import MockData
  import StaffCard

  // --------------------------------------------------------------- search

  /** The search test as written: the name, then the department, then the
      e-mail, each lower-cased. `toLowerCase` on a department that is
      missing, or is a list, throws a TypeError (`None`); the name test
      short-circuits before it when it already matches. */
  function StaffMatchesAsWritten(member: StaffMember, query: string): (r: Option<bool>)
    ensures r.None? <==> !ContainsCI(member.name, query) && !(member.department.Some? && member.department.value.Text?)
  {
    if ContainsCI(member.name, query) then Some(true)
    else match member.department
      case Some(Text(d)) => Some(ContainsCI(d, query) || ContainsCI(member.email, query))
      case _ => None
  }

  /** `staff.filter(...)` as written: it throws as soon as one member's test
      throws. */
  function FilteredStaffAsWritten(staff: seq<StaffMember>, query: string): Option<seq<StaffMember>>
    decreases |staff|
  {
    if staff == [] then Some([])
    else match StaffMatchesAsWritten(staff[0], query)
      case None => None
      case Some(keep) =>
        var rest := FilteredStaffAsWritten(staff[1..], query);
        if rest.None? then None else Some((if keep then [staff[0]] else []) + rest.value)
  }

  /** The search test corrected: the department is searched as the card
      shows it (a list joined with ", ", a missing one as no text). */
  predicate StaffMatches(member: StaffMember, query: string) {
    ContainsCI(member.name, query)
    || ContainsCI(StaffCard.DepartmentText(member.department), query)
    || ContainsCI(member.email, query)
  }

  function FilteredStaff(staff: seq<StaffMember>, query: string): seq<StaffMember> {
    Filter(staff, (m: StaffMember) => StaffMatches(m, query))
  }

  /** The shown members keep their order and are exactly those whose name,
      department or e-mail holds the query, in any case. */
  lemma FilteredStaffSpec(staff: seq<StaffMember>, query: string)
    ensures IsSubseq(FilteredStaff(staff, query), staff)
    ensures forall m :: m in FilteredStaff(staff, query) <==> m in staff && StaffMatches(m, query)
  {
    FilterSpec(staff, (m: StaffMember) => StaffMatches(m, query));
  }

  /** An empty search shows every member. */
  lemma EmptyQueryShowsAll(staff: seq<StaffMember>)
    ensures FilteredStaff(staff, "") == staff
  {
    forall m: StaffMember
      ensures StaffMatches(m, "")
    {
      ContainsEmpty(ToLower(m.name));
    }
    FilterAll(staff, (m: StaffMember) => StaffMatches(m, ""));
  }

  /** In the corrected search a member without a department is found by
      name or e-mail only. */
  lemma MissingDepartmentNeverMatches(member: StaffMember, query: string)
    requires member.department.None? && query != ""
    ensures StaffMatches(member, query) <==> ContainsCI(member.name, query) || ContainsCI(member.email, query)
  {
    ContainsLonger("", ToLower(query));
  }

  /** As written, the search throws exactly when some member is not found by
      name and has no single department; otherwise it agrees with the
      corrected search. */
  lemma {:induction false} AsWrittenAgreesOrThrows(staff: seq<StaffMember>, query: string)
    ensures FilteredStaffAsWritten(staff, query).None? <==>
            exists i :: 0 <= i < |staff| && StaffMatchesAsWritten(staff[i], query).None?
    ensures FilteredStaffAsWritten(staff, query).Some? ==>
            FilteredStaffAsWritten(staff, query).value == FilteredStaff(staff, query)
    decreases |staff|
  {
    if staff != [] {
      AsWrittenAgreesOrThrows(staff[1..], query);
      var p := (m: StaffMember) => StaffMatches(m, query);
      assert Filter(staff, p) == (if p(staff[0]) then [staff[0]] else []) + Filter(staff[1..], p);
      if exists i :: 0 <= i < |staff[1..]| && StaffMatchesAsWritten(staff[1..][i], query).None? {
        var i :| 0 <= i < |staff[1..]| && StaffMatchesAsWritten(staff[1..][i], query).None?;
        assert staff[1..][i] == staff[i + 1];
      }
      if exists i :: 0 <= i < |staff| && StaffMatchesAsWritten(staff[i], query).None? {
        var i :| 0 <= i < |staff| && StaffMatchesAsWritten(staff[i], query).None?;
        if i > 0 {
          assert staff[1..][i - 1] == staff[i];
        }
      }
    }
  }

  /** On the fixture staff, none of whom has a department, searching for the
      first member's e-mail throws: her name does not hold it, so her
      department is lower-cased. */
  lemma EmailSearchThrowsAsWritten()
    ensures FilteredStaffAsWritten(MockData.MockStaffMembers(), "sara@orderflow.com") == None
  {
    var sara := MockData.Staff2();
    ContainsLonger(ToLower(sara.name), ToLower("sara@orderflow.com"));
    assert StaffMatchesAsWritten(sara, "sara@orderflow.com") == None;
  }

  /** The corrected search finds her by that e-mail. */
  lemma EmailSearchFindsCorrected()
    ensures MockData.Staff2() in FilteredStaff(MockData.MockStaffMembers(), "sara@orderflow.com")
  {
    var sara := MockData.Staff2();
    var q := "sara@orderflow.com";
    assert IsPrefix(ToLower(q), ToLower(sara.email));
    FilteredStaffSpec(MockData.MockStaffMembers(), q);
  }

  // --------------------------------------------------------------- update

  /** `handleUpdateStaff`: every member with the updated member's id is
      replaced by it; every other member stays where it is. */
  function StaffUpdated(staff: seq<StaffMember>, updated: StaffMember): (r: seq<StaffMember>)
    ensures |r| == |staff|
    ensures forall i :: 0 <= i < |staff| ==> r[i] == (if staff[i].id == updated.id then updated else staff[i])
  {
    seq(|staff|, i requires 0 <= i < |staff| => if staff[i].id == updated.id then updated else staff[i])
  }

  /** Updating twice with the same member is updating once, an unknown id
      changes nothing, and the update is then found where the old member
      was. */
  lemma StaffUpdatedProperties(staff: seq<StaffMember>, updated: StaffMember)
    ensures StaffUpdated(StaffUpdated(staff, updated), updated) == StaffUpdated(staff, updated)
    ensures (forall i :: 0 <= i < |staff| ==> staff[i].id != updated.id) ==> StaffUpdated(staff, updated) == staff
    ensures (exists i :: 0 <= i < |staff| && staff[i].id == updated.id) ==> updated in StaffUpdated(staff, updated)
  {
    if exists i :: 0 <= i < |staff| && staff[i].id == updated.id {
      var i :| 0 <= i < |staff| && staff[i].id == updated.id;
      assert StaffUpdated(staff, updated)[i] == updated;
    }
  }

  // ------------------------------------------------------------------ add

  /** `x || fallback` on a string. */
  function OrElse(x: string, fallback: string): (r: string)
    ensures x != "" ==> r == x
    ensures x == "" ==> r == fallback
  {
    if x == "" then fallback else x
  }

  /** The add form's guard: neither the name nor the e-mail may be empty. */
  predicate FormComplete(name: string, email: string) {
    name != "" && email != ""
  }

  /** The `newStaff` form object; the department is a single choice and the
      days off a list. */
  datatype StaffForm = StaffForm(name: string, email: string, role: string, department: string,
                                 position: string, shiftStart: string, shiftEnd: string, daysOff: seq<string>)

  /** The form as it starts and as every add leaves it. */
  const DefaultForm := StaffForm("", "", "team", "Electronics", "Team Member", "09:00", "17:00", ["Friday"])

  /** The member `handleAddStaff` builds from the form at instant `nowMs`.
      Empty text fields take their defaults; the days off are the form's
      list as it is. The new member has no sections, and the statistics it
      leaves out are zero. */
  function NewMember(nowMs: int, form: StaffForm): (m: StaffMember)
    ensures m.id == "staff-" + IntToString(nowMs) && m.name == form.name && m.email == form.email
    ensures m.role == form.role && m.department == Some(Text(OrElse(form.department, "Electronics")))
    ensures m.position == OrElse(form.position, "Team Member")
    ensures m.shiftStart == OrElse(form.shiftStart, "09:00") && m.shiftEnd == OrElse(form.shiftEnd, "17:00")
    ensures m.daysOff == Some(List(form.daysOff)) && m.sections == []
    ensures m.taskCompletionStats == Some(TaskStats(0, 0, 0, 0, map[]))
    ensures m.avatar == Some("https://api.dicebear.com/7.x/avataaars/svg?seed=" + IntToString(nowMs))
  {
    StaffMember("staff-" + IntToString(nowMs), form.name, form.email, form.role, [],
      Some(Text(OrElse(form.department, "Electronics"))),
      OrElse(form.position, "Team Member"), OrElse(form.shiftStart, "09:00"), OrElse(form.shiftEnd, "17:00"),
      Some(List(form.daysOff)), None, Some(TaskStats(0, 0, 0, 0, map[])),
      Some("https://api.dicebear.com/7.x/avataaars/svg?seed=" + IntToString(nowMs)))
  }

  /** A new member is found by the corrected search under its department. */
  lemma NewMemberFoundByDepartment(nowMs: int, form: StaffForm)
    ensures StaffMatches(NewMember(nowMs, form), OrElse(form.department, "Electronics"))
  {
    var d := OrElse(form.department, "Electronics");
    assert IsPrefix(ToLower(d), ToLower(d));
  }

  // ----------------------------------------------------------- late total

  /** A member's late completions, or 0 without statistics. */
  function MemberLate(member: StaffMember): int {
    if member.taskCompletionStats.Some? then member.taskCompletionStats.value.lateCompletions else 0
  }

  /** `totalLateCompletions`: the late completions summed over the members
      that have statistics. */
  function TotalLate(staff: seq<StaffMember>): int
    decreases |staff|
  {
    if staff == [] then 0 else MemberLate(staff[0]) + TotalLate(staff[1..])
  }

  /** The total of two lists is the sum of their totals. */
  lemma {:induction false} TotalLateConcat(a: seq<StaffMember>, b: seq<StaffMember>)
    ensures TotalLate(a + b) == TotalLate(a) + TotalLate(b)
    decreases |a|
  {
    if a == [] {
      assert a + b == b;
    } else {
      TotalLateConcat(a[1..], b);
      assert (a + b)[1..] == a[1..] + b;
    }
  }

  /** Members without statistics add nothing: the total is the same over
      the members that have them. */
  lemma {:induction false} TotalLateOverStats(staff: seq<StaffMember>)
    ensures TotalLate(staff) == TotalLate(Filter(staff, (m: StaffMember) => m.taskCompletionStats.Some?))
    decreases |staff|
  {
    if staff != [] {
      TotalLateOverStats(staff[1..]);
      var p := (m: StaffMember) => m.taskCompletionStats.Some?;
      if p(staff[0]) {
        FilterKeep(staff[0], staff[1..], p);
        assert staff == [staff[0]] + staff[1..];
        assert ([staff[0]] + Filter(staff[1..], p))[1..] == Filter(staff[1..], p);
      } else {
        FilterDrop(staff[0], staff[1..], p);
        assert staff == [staff[0]] + staff[1..];
      }
    }
  }

  /** Adding a member does not change the total (its count starts at 0). */
  lemma AddKeepsTotalLate(staff: seq<StaffMember>, nowMs: int, form: StaffForm)
    ensures TotalLate(staff + [NewMember(nowMs, form)]) == TotalLate(staff)
  {
    var m := NewMember(nowMs, form);
    TotalLateConcat(staff, [m]);
    assert TotalLate([m]) == MemberLate(m) + TotalLate([]);
  }

  // ----------------------------------------------------------------- page

  class TeamManagement {
    var staff: seq<StaffMember>
    var searchQuery: string
    var isAddingStaff: bool
    var newStaff: StaffForm

    constructor (initial: seq<StaffMember>)
      ensures staff == initial && searchQuery == "" && !isAddingStaff && newStaff == DefaultForm
    {
      staff, searchQuery, isAddingStaff, newStaff := initial, "", false, DefaultForm;
    }

    /** The cards shown, with the search as written: `None` when the render
        throws. Whenever it does not throw, the cards are those of the
        corrected search. */
    function ShownStaff(): (r: Option<seq<StaffMember>>)
      reads this
      ensures r.None? <==> exists i :: 0 <= i < |staff| && StaffMatchesAsWritten(staff[i], searchQuery).None?
      ensures r.Some? ==> r.value == FilteredStaff(staff, searchQuery)
    {
      AsWrittenAgreesOrThrows(staff, searchQuery);
      FilteredStaffAsWritten(staff, searchQuery)
    }

    method SetSearchQuery(query: string)
      modifies this
      ensures searchQuery == query && staff == old(staff) && newStaff == old(newStaff)
      ensures isAddingStaff == old(isAddingStaff)
    {
      searchQuery := query;
    }

    /** The dialog's open state. */
    method SetAddingStaff(open: bool)
      modifies this
      ensures isAddingStaff == open && staff == old(staff) && searchQuery == old(searchQuery)
      ensures newStaff == old(newStaff)
    {
      isAddingStaff := open;
    }

    /** Typing in the form; the days-off selector sets a one-day list. */
    method EditForm(name: string, email: string, role: string, department: string, position: string,
                    shiftStart: string, shiftEnd: string, dayOff: string)
      modifies this
      ensures newStaff == StaffForm(name, email, role, department, position, shiftStart, shiftEnd, [dayOff])
      ensures staff == old(staff) && searchQuery == old(searchQuery) && isAddingStaff == old(isAddingStaff)
    {
      newStaff := StaffForm(name, email, role, department, position, shiftStart, shiftEnd, [dayOff]);
    }

    method UpdateStaff(updated: StaffMember)
      modifies this
      ensures staff == StaffUpdated(old(staff), updated)
      ensures searchQuery == old(searchQuery) && isAddingStaff == old(isAddingStaff)
      ensures newStaff == old(newStaff)
    {
      staff := StaffUpdated(staff, updated);
    }

    /** `handleAddStaff` at instant `nowMs`: an empty name or e-mail is
      refused and nothing changes; otherwise the new member goes last, the
      dialog closes and the form returns to its defaults. */
    method AddStaff(nowMs: int) returns (added: bool)
      modifies this
      ensures added <==> FormComplete(old(newStaff.name), old(newStaff.email))
      ensures !added ==> unchanged(this)
      ensures added ==> staff == old(staff) + [NewMember(nowMs, old(newStaff))]
                        && !isAddingStaff && newStaff == DefaultForm
      ensures searchQuery == old(searchQuery)
    {
      added := FormComplete(newStaff.name, newStaff.email);
      if added {
        staff := staff + [NewMember(nowMs, newStaff)];
        isAddingStaff, newStaff := false, DefaultForm;
      }
    }
  }
}
