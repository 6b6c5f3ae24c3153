/** The developers' page (src/pages/developer/DeveloperDashboard.tsx): the
    list of API integrations, each switched on and off in place, and a form
    that appends a new, inactive one. */
module DeveloperDashboard {
  import opened Common
  import opened Types
  import MockData

  function Flip(s: IntegrationStatus): (r: IntegrationStatus)
    ensures r != s
  {
    if s == Active then Inactive else Active
  }

  /** One integration switched at instant `nowMs`: an integration that
      becomes active is stamped with the instant, one that becomes inactive
      keeps its last synchronisation. */
  function Toggled(integration: ApiIntegration, nowMs: int): (r: ApiIntegration)
    ensures r.status != integration.status
    ensures r.status == Active ==> r.lastSynced == Some(nowMs)
    ensures r.status == Inactive ==> r.lastSynced == integration.lastSynced
    ensures r.id == integration.id && r.name == integration.name && r.endpoint == integration.endpoint
    ensures r.authType == integration.authType
  {
    var status := Flip(integration.status);
    integration.(status := status, lastSynced := if status == Active then Some(nowMs) else integration.lastSynced)
  }

  /** `toggleIntegrationStatus(id)`: the integrations with the id are
      switched, every other one is left as it is. */
  function ToggledList(integrations: seq<ApiIntegration>, id: string, nowMs: int): (r: seq<ApiIntegration>)
    ensures |r| == |integrations|
    ensures forall i :: 0 <= i < |integrations| ==>
              r[i] == (if integrations[i].id == id then Toggled(integrations[i], nowMs) else integrations[i])
  {
    seq(|integrations|, i requires 0 <= i < |integrations| =>
      if integrations[i].id == id then Toggled(integrations[i], nowMs) else integrations[i])
  }

  /** Switching an id nobody has changes nothing; switching twice restores
      every status, and an integration that started active also gets its
      stamp from the second switch. */
  lemma ToggleTwice(integrations: seq<ApiIntegration>, id: string, t1: int, t2: int)
    ensures (forall i :: 0 <= i < |integrations| ==> integrations[i].id != id) ==>
              ToggledList(integrations, id, t1) == integrations
    ensures var twice := ToggledList(ToggledList(integrations, id, t1), id, t2);
            |twice| == |integrations|
            && (forall i :: 0 <= i < |integrations| ==> twice[i].status == integrations[i].status)
            && (forall i :: 0 <= i < |integrations| && integrations[i].id == id && integrations[i].status == Active ==>
                  twice[i].lastSynced == Some(t2))
            && (forall i :: 0 <= i < |integrations| && integrations[i].id == id && integrations[i].status == Inactive ==>
                  twice[i].lastSynced == Some(t1))
  {
    var once := ToggledList(integrations, id, t1);
    var twice := ToggledList(once, id, t2);
    forall i | 0 <= i < |integrations|
      ensures twice[i].status == integrations[i].status
    {
      assert once[i].id == integrations[i].id;
    }
  }

  /** The stamp is not restored: the fixture's inactive Inventory System,
      never synchronised, has a synchronisation after two switches. */
  lemma ToggleTwiceKeepsStamp(t1: int, t2: int)
    ensures var list := MockData.MockApiIntegrations();
            var twice := ToggledList(ToggledList(list, "api3", t1), "api3", t2);
            twice[2].status == list[2].status && twice[2].lastSynced != list[2].lastSynced
  {
    ToggleTwice(MockData.MockApiIntegrations(), "api3", t1, t2);
  }

  /** The `newIntegration` form object. */
  datatype IntegrationForm = IntegrationForm(name: string, endpoint: string, authType: AuthType)

  const DefaultForm := IntegrationForm("", "", ApiKey)

  /** The add form's guard: neither the name nor the endpoint may be empty. */
  predicate FormComplete(form: IntegrationForm) {
    form.name != "" && form.endpoint != ""
  }

  /** The integration `handleAddIntegration` builds at instant `nowMs`:
      always inactive and never synchronised. */
  function NewIntegration(nowMs: int, form: IntegrationForm): (r: ApiIntegration)
    ensures r.id == "api-" + IntToString(nowMs) && r.name == form.name && r.endpoint == form.endpoint
    ensures r.authType == form.authType && r.status == Inactive && r.lastSynced.None?
  {
    ApiIntegration("api-" + IntToString(nowMs), form.name, form.endpoint, form.authType, Inactive, None)
  }

  /** Switching a new integration on stamps it with the instant of the
      switch. */
  lemma NewThenToggled(nowMs: int, form: IntegrationForm, later: int)
    ensures Toggled(NewIntegration(nowMs, form), later).status == Active
    ensures Toggled(NewIntegration(nowMs, form), later).lastSynced == Some(later)
  {
  }

  class DeveloperDashboard {
    var integrations: seq<ApiIntegration>
    var isAddingIntegration: bool
    var newIntegration: IntegrationForm

    constructor (initial: seq<ApiIntegration>)
      ensures integrations == initial && !isAddingIntegration && newIntegration == DefaultForm
    {
      integrations, isAddingIntegration, newIntegration := initial, false, DefaultForm;
    }

    /** `toggleIntegrationStatus` at instant `nowMs`. */
    method ToggleIntegrationStatus(id: string, nowMs: int)
      modifies this
      ensures integrations == ToggledList(old(integrations), id, nowMs)
      ensures isAddingIntegration == old(isAddingIntegration) && newIntegration == old(newIntegration)
    {
      integrations := ToggledList(integrations, id, nowMs);
    }

    /** Typing in the form or choosing its authentication type. */
    method EditForm(form: IntegrationForm)
      modifies this
      ensures newIntegration == form
      ensures integrations == old(integrations) && isAddingIntegration == old(isAddingIntegration)
    {
      newIntegration := form;
    }

    /** The dialog's open state. */
    method SetAddingIntegration(open: bool)
      modifies this
      ensures isAddingIntegration == open
      ensures integrations == old(integrations) && newIntegration == old(newIntegration)
    {
      isAddingIntegration := open;
    }

    /** `handleAddIntegration` at instant `nowMs`: an empty name or endpoint
      is refused and nothing changes; otherwise the new integration goes
      last, the dialog closes and the form is reset. */
    method AddIntegration(nowMs: int) returns (added: bool)
      modifies this
      ensures added <==> FormComplete(old(newIntegration))
      ensures !added ==> unchanged(this)
      ensures added ==> integrations == old(integrations) + [NewIntegration(nowMs, old(newIntegration))]
                        && !isAddingIntegration && newIntegration == DefaultForm
    {
      added := FormComplete(newIntegration);
      if added {
        integrations := integrations + [NewIntegration(nowMs, newIntegration)];
        isAddingIntegration, newIntegration := false, DefaultForm;
      }
    }
  }
}
