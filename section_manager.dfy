/** The sections editor of a staff member (src/components/dashboard/SectionManager.tsx):
    a dialog of five sections whose buttons toggle membership, a save that
    hands the selection to the owner, and the badge colour of a section. */
module SectionManager {
  import opened Common
  import opened Types

  const AvailableSections: seq<string> := ["canva", "youtube", "discord", "linkedin", "fortnite"]

  /** `handleToggleSection`: a selected section leaves (every copy of it);
      any other joins at the end. */
  function Toggled(selected: seq<string>, section: string): seq<string> {
    if section in selected then Filter(selected, (s: string) => s != section) else selected + [section]
  }

  /** A toggle flips the membership of its section and of no other. */
  lemma ToggleFlips(selected: seq<string>, section: string, x: string)
    ensures x in Toggled(selected, section) <==> (if x == section then section !in selected else x in selected)
  {
    FilterSpec(selected, (s: string) => s != section);
  }

  /** The other sections keep their order. */
  lemma ToggleKeepsOthers(selected: seq<string>, section: string)
    ensures Filter(Toggled(selected, section), (s: string) => s != section)
         == Filter(selected, (s: string) => s != section)
  {
    var p := (s: string) => s != section;
    if section in selected {
      FilterAll(Filter(selected, p), p) by {
        FilterSpec(selected, p);
      }
    } else {
      FilterConcat(selected, [section], p);
      assert Filter([section], p) == [];
    }
  }

  /** An absent section toggled twice restores the list; a present one
      toggled twice ends up once, at the end. */
  lemma ToggleTwice(selected: seq<string>, section: string)
    ensures section !in selected ==> Toggled(Toggled(selected, section), section) == selected
    ensures section in selected ==>
              Toggled(Toggled(selected, section), section) == Filter(selected, (s: string) => s != section) + [section]
  {
    var p := (s: string) => s != section;
    FilterSpec(selected, p);
    if section !in selected {
      assert section in selected + [section];
      FilterConcat(selected, [section], p);
      assert Filter([section], p) == [];
      FilterAll(selected, p);
    }
  }

  /** A selection without repeats stays without repeats. */
  lemma ToggleKeepsNoDup(selected: seq<string>, section: string)
    requires NoDup(selected)
    ensures NoDup(Toggled(selected, section))
  {
    if section in selected {
      FilterNoDup(selected, (s: string) => s != section);
    }
  }

  lemma {:induction false} FilterNoDup<T>(s: seq<T>, p: T -> bool)
    requires NoDup(s)
    ensures NoDup(Filter(s, p))
    decreases |s|
  {
    if s != [] {
      assert NoDup(s[1..]) by {
        forall i, j | 0 <= i < j < |s[1..]|
          ensures s[1..][i] != s[1..][j]
        {
          assert s[1..][i] == s[i + 1] && s[1..][j] == s[j + 1];
        }
      }
      FilterNoDup(s[1..], p);
      if p(s[0]) {
        FilterSpec(s[1..], p);
        var r := Filter(s, p);
        assert r == [s[0]] + Filter(s[1..], p);
        forall i, j | 0 <= i < j < |r|
          ensures r[i] != r[j]
        {
          if i == 0 {
            assert r[j] in Filter(s[1..], p);
          } else {
            assert r[i] == Filter(s[1..], p)[i - 1] && r[j] == Filter(s[1..], p)[j - 1];
          }
        }
      }
    }
  }

  const Gray := "bg-gray-100 text-gray-800 hover:bg-gray-200"

  /** The colour classes of the five sections. */
  const BadgeStyles: map<string, string> := map[
    "canva" := "bg-purple-100 text-purple-800 hover:bg-purple-200",
    "youtube" := "bg-red-100 text-red-800 hover:bg-red-200",
    "discord" := "bg-indigo-100 text-indigo-800 hover:bg-indigo-200",
    "linkedin" := "bg-blue-100 text-blue-800 hover:bg-blue-200",
    "fortnite" := "bg-green-100 text-green-800 hover:bg-green-200"]

  /** `getSectionBadge`: the colour classes of a section by its lower-case
      name, grey for any other. */
  function SectionBadge(section: string): (r: string)
    ensures ToLower(section) !in BadgeStyles ==> r == Gray
    ensures ToLower(section) in BadgeStyles ==> r == BadgeStyles[ToLower(section)]
  {
    var s := ToLower(section);
    if s in BadgeStyles then BadgeStyles[s] else Gray
  }

  /** The styled sections are exactly the ones the dialog offers. */
  lemma StyledAreAvailable()
    ensures forall s :: s in BadgeStyles <==> s in AvailableSections
  {
  }

  /** The badge ignores case. */
  lemma BadgeIgnoresCase(section: string)
    ensures SectionBadge(ToLower(section)) == SectionBadge(section)
  {
    ToLowerTwice(section);
  }

  lemma ToLowerTwice(s: string)
    ensures ToLower(ToLower(s)) == ToLower(s)
  {
    forall i | 0 <= i < |s|
      ensures ToLower(ToLower(s))[i] == ToLower(s)[i]
    {
      LowerCharTwice(s[i]);
    }
  }

  lemma LowerCharTwice(c: char)
    ensures LowerChar(LowerChar(c)) == LowerChar(c)
  {
  }

  class SectionManager {
    const staffMember: StaffMember
    var isOpen: bool
    var selectedSections: seq<string>
    /** The selections handed to `onUpdate`, in order. */
    var updates: seq<seq<string>>

    constructor (staffMember: StaffMember)
      ensures this.staffMember == staffMember && selectedSections == staffMember.sections
      ensures !isOpen && updates == []
    {
      this.staffMember := staffMember;
      isOpen, selectedSections, updates := false, staffMember.sections, [];
    }

    method ToggleSection(section: string)
      modifies this
      ensures selectedSections == Toggled(old(selectedSections), section)
      ensures isOpen == old(isOpen) && updates == old(updates)
    {
      if section in selectedSections {
        selectedSections := Filter(selectedSections, (s: string) => s != section);
      } else {
        selectedSections := selectedSections + [section];
      }
    }

    /** `handleSave`: exactly the current selection is handed on and the
      dialog closes. */
    method Save()
      modifies this
      ensures updates == old(updates) + [selectedSections] && !isOpen
      ensures selectedSections == old(selectedSections)
    {
      updates := updates + [selectedSections];
      isOpen := false;
    }

    /** Opening the dialog, or closing it with cancel, hands nothing on. */
    method SetOpen(open: bool)
      modifies this
      ensures isOpen == open && updates == old(updates) && selectedSections == old(selectedSections)
    {
      isOpen := open;
    }
  }
}
