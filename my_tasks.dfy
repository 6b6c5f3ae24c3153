/** A team member's task list (src/pages/team/MyTasks.tsx): the fixture
    orders of the signed-in user's department, with the same search box and
    tabs as the administrators' board, status changes that touch the status
    only, a refresh that only notes the time, and the per-status counters. */
module MyTasks {
  import opened Common
  import opened Types
  import MockData
  import opened OrdersDashboard

  /** The department of a signed-in user that has a non-empty one. */
  predicate HasDepartment(user: Option<User>) {
    user.Some? && user.value.department.Some? && user.value.department.value != ""
  }

  /** The list the page starts from (and that its user effect reloads):
      the orders of `mock` in the user's department, or none. */
  function DepartmentOrders(user: Option<User>, mock: seq<Order>): seq<Order> {
    if HasDepartment(user) then Filter(mock, (o: Order) => o.department == user.value.department.value)
    else []
  }

  /** The list is exactly the orders of the user's department, in their
      order, and empty without a user or a department. */
  lemma DepartmentOrdersSpec(user: Option<User>, mock: seq<Order>)
    ensures IsSubseq(DepartmentOrders(user, mock), mock)
    ensures !HasDepartment(user) ==> DepartmentOrders(user, mock) == []
    ensures HasDepartment(user) ==>
              forall o :: o in DepartmentOrders(user, mock) <==>
                o in mock && o.department == user.value.department.value
  {
    if HasDepartment(user) {
      FilterSpec(mock, (o: Order) => o.department == user.value.department.value);
    }
  }

  /** No fixture user has a department, so every one of them starts with an
      empty task list. */
  lemma FixtureUsersHaveNoTasks(u: User)
    requires u in MockData.MockUsers()
    ensures DepartmentOrders(Some(u), MockData.MockOrders()) == []
  {
    FixtureUserDepartments(u);
  }

  lemma FixtureUserDepartments(u: User)
    requires u in MockData.MockUsers()
    ensures u.department.None?
  {
  }

  /** `handleStatusChange`: the matching orders take the status, and nothing
      else changes. */
  function SetStatus(orders: seq<Order>, id: string, status: OrderStatus): (r: seq<Order>)
    ensures |r| == |orders|
    ensures forall i :: 0 <= i < |orders| && orders[i].id != id ==> r[i] == orders[i]
    ensures forall i :: 0 <= i < |orders| && orders[i].id == id ==> r[i] == orders[i].(status := status)
  {
    seq(|orders|, i requires 0 <= i < |orders| =>
      if orders[i].id == id then orders[i].(status := status) else orders[i])
  }

  /** The task list and the administrators' board agree on every field of
      every order after a change except the timeline, which only the board
      stamps. */
  lemma SetStatusIsChangeWithoutTimeline(orders: seq<Order>, id: string, status: OrderStatus, now: int, i: int)
    requires 0 <= i < |orders|
    ensures SetStatus(orders, id, status)[i].timeline == orders[i].timeline
    ensures SetStatus(orders, id, status)[i]
         == ChangeStatus(orders, id, status, now)[i].(timeline := orders[i].timeline)
  {
  }

  class MyTasks {
    const user: Option<User>
    var orders: seq<Order>
    var filteredOrders: seq<Order>
    var searchQuery: string
    var activeTab: string
    var lastUpdated: int

    /** The shown list is the board's filter of the list. */
    predicate Valid()
      reads this
    {
      filteredOrders == FilteredOrders(orders, searchQuery, activeTab)
    }

    /** The page opens on the user's department orders, all shown. */
    constructor (user: Option<User>, now: int)
      ensures Valid() && this.user == user
      ensures orders == DepartmentOrders(user, MockData.MockOrders()) && filteredOrders == orders
      ensures searchQuery == "" && activeTab == "all" && lastUpdated == now
    {
      this.user := user;
      var initial := DepartmentOrders(user, MockData.MockOrders());
      orders, filteredOrders := initial, initial;
      searchQuery, activeTab, lastUpdated := "", "all", now;
      ShowsEverything(initial);
    }

    /** The effect on the user: a user with a department gets its orders
      back (undoing any status change); otherwise the list is kept. */
    method UserEffect()
      requires Valid()
      modifies this
      ensures Valid()
      ensures HasDepartment(user) ==> orders == DepartmentOrders(user, MockData.MockOrders())
      ensures !HasDepartment(user) ==> orders == old(orders)
      ensures searchQuery == old(searchQuery) && activeTab == old(activeTab) && lastUpdated == old(lastUpdated)
    {
      if HasDepartment(user) {
        orders := DepartmentOrders(user, MockData.MockOrders());
        filteredOrders := FilteredOrders(orders, searchQuery, activeTab);
      }
    }

    method SetSearchQuery(query: string)
      requires Valid()
      modifies this
      ensures Valid() && searchQuery == query && activeTab == old(activeTab)
      ensures orders == old(orders) && lastUpdated == old(lastUpdated)
    {
      searchQuery := query;
      filteredOrders := FilteredOrders(orders, searchQuery, activeTab);
    }

    method SetActiveTab(tab: string)
      requires Valid()
      modifies this
      ensures Valid() && activeTab == tab && searchQuery == old(searchQuery)
      ensures orders == old(orders) && lastUpdated == old(lastUpdated)
    {
      activeTab := tab;
      filteredOrders := FilteredOrders(orders, searchQuery, activeTab);
    }

    method StatusChange(id: string, status: OrderStatus)
      requires Valid()
      modifies this
      ensures Valid() && orders == SetStatus(old(orders), id, status)
      ensures searchQuery == old(searchQuery) && activeTab == old(activeTab) && lastUpdated == old(lastUpdated)
    {
      orders := SetStatus(orders, id, status);
      filteredOrders := FilteredOrders(orders, searchQuery, activeTab);
    }

    /** `handleRefresh`: only the time of the last update changes. */
    method Refresh(now: int)
      requires Valid()
      modifies this
      ensures Valid() && lastUpdated == now
      ensures orders == old(orders) && filteredOrders == old(filteredOrders)
      ensures searchQuery == old(searchQuery) && activeTab == old(activeTab)
    {
      lastUpdated := now;
    }

    /** The pending, in-progress and completed counters: each is the number
      of listed orders with that status. */
    method Counters() returns (pending: nat, inProgress: nat, completed: nat)
      ensures pending == StatusCount(orders, Pending) && inProgress == StatusCount(orders, InProgress)
      ensures completed == StatusCount(orders, Completed)
      ensures pending == multiset(Statuses(orders))[Pending] && inProgress == multiset(Statuses(orders))[InProgress]
      ensures completed == multiset(Statuses(orders))[Completed]
      ensures pending + inProgress + completed <= |orders|
    {
      pending := |Filter(orders, (o: Order) => o.status == Pending)|;
      inProgress := |Filter(orders, (o: Order) => o.status == InProgress)|;
      completed := |Filter(orders, (o: Order) => o.status == Completed)|;
      CountersAtMostTotal(orders);
      StatusCountIsMultiplicity(orders, Pending);
      StatusCountIsMultiplicity(orders, InProgress);
      StatusCountIsMultiplicity(orders, Completed);
    }
  }
}
