/** The administrators' order board (src/pages/admin/OrdersDashboard.tsx):
    a list of orders with a search box and status tabs, status changes that
    stamp the order's timeline, a refresh that may bring in one new order,
    and the per-status counters. `filteredOrders`, which an effect recomputes
    whenever the list, the query or the tab changes, is kept equal to the
    filter of the list by every method. */
module OrdersDashboard {
  import opened Common
  import opened Types
  import MockData

  // ----------------------------------------------------------------- filter

  predicate MatchesSearch(o: Order, query: string) {
    query == "" || ContainsCI(o.orderId, query) || ContainsCI(o.customerName, query)
  }

  predicate MatchesTab(o: Order, tab: string) {
    tab == "all" || StatusName(o.status) == tab
  }

  predicate Shown(o: Order, query: string, tab: string) {
    MatchesSearch(o, query) && MatchesTab(o, tab)
  }

  /** The orders the board shows for a query and a tab. */
  function FilteredOrders(orders: seq<Order>, query: string, tab: string): seq<Order> {
    Filter(orders, (o: Order) => Shown(o, query, tab))
  }

  /** The shown orders keep the list's order and are exactly the orders that
      match both the search and the tab. */
  lemma FilteredOrdersSpec(orders: seq<Order>, query: string, tab: string)
    ensures IsSubseq(FilteredOrders(orders, query, tab), orders)
    ensures |FilteredOrders(orders, query, tab)| <= |orders|
    ensures forall o :: o in FilteredOrders(orders, query, tab) ==>
              o in orders && MatchesSearch(o, query) && MatchesTab(o, tab)
    ensures forall o :: o in orders && MatchesSearch(o, query) && MatchesTab(o, tab) ==>
              o in FilteredOrders(orders, query, tab)
  {
    FilterSpec(orders, (o: Order) => Shown(o, query, tab));
  }

  /** An empty query on the "all" tab shows the whole list. */
  lemma ShowsEverything(orders: seq<Order>)
    ensures FilteredOrders(orders, "", "all") == orders
  {
    FilterAll(orders, (o: Order) => Shown(o, "", "all"));
  }

  /** The tabs are "all", "pending", "in_progress" and "completed": a
      cancelled order is shown under "all" only. */
  lemma CancelledOnlyUnderAll(o: Order, query: string, tab: string)
    requires o.status == Cancelled && tab in ["pending", "in_progress", "completed"]
    ensures !Shown(o, query, tab)
  {
  }

  /** Searching narrows a tab: the tab's orders that match the query. */
  lemma SearchWithinTab(orders: seq<Order>, query: string, tab: string)
    ensures FilteredOrders(orders, query, tab)
         == Filter(FilteredOrders(orders, "", tab), (o: Order) => MatchesSearch(o, query))
  {
    var p := (o: Order) => Shown(o, "", tab);
    var q := (o: Order) => MatchesSearch(o, query);
    FilterFilter(orders, p, q, (o: Order) => Shown(o, query, tab));
  }

  // ----------------------------------------------------------- status change

  /** The timeline after a change to `status` at instant `now`: a missing
      timeline is copied as an empty one, in progress stamps `started` and
      completed stamps `completed`. */
  function Stamp(t: Option<Timeline>, status: OrderStatus, now: int): Timeline {
    var base := t.GetOr(EmptyTimeline);
    if status == InProgress then base.(startedAt := Some(now))
    else if status == Completed then base.(completedAt := Some(now))
    else base
  }

  function Updated(o: Order, status: OrderStatus, now: int): Order {
    o.(status := status, timeline := Some(Stamp(o.timeline, status, now)))
  }

  /** `handleStatusChange` (and the identical callback each card receives):
      every order with the id is updated, the others are kept. */
  function ChangeStatus(orders: seq<Order>, id: string, status: OrderStatus, now: int): (r: seq<Order>)
    ensures |r| == |orders|
    ensures forall i :: 0 <= i < |orders| && orders[i].id != id ==> r[i] == orders[i]
    ensures forall i :: 0 <= i < |orders| && orders[i].id == id ==> r[i] == Updated(orders[i], status, now)
  {
    seq(|orders|, i requires 0 <= i < |orders| =>
      if orders[i].id == id then Updated(orders[i], status, now) else orders[i])
  }

  /** A changed order differs only in its status and timeline; it takes the
      new status, and its ids do not move. */
  lemma ChangeStatusOnlyMatching(orders: seq<Order>, id: string, status: OrderStatus, now: int, i: int)
    requires 0 <= i < |orders|
    ensures ChangeStatus(orders, id, status, now)[i].id == orders[i].id
    ensures orders[i].id == id ==>
              ChangeStatus(orders, id, status, now)[i].status == status
              && ChangeStatus(orders, id, status, now)[i]
                 == orders[i].(status := status, timeline := ChangeStatus(orders, id, status, now)[i].timeline)
    ensures orders[i].id != id ==> ChangeStatus(orders, id, status, now)[i] == orders[i]
  {
  }

  /** The timeline of a changed order: starting stamps `started`, completing
      stamps `completed`, and every other key is kept; pending and cancelled
      stamp nothing. */
  lemma StampKeepsOtherKeys(t: Option<Timeline>, status: OrderStatus, now: int)
    ensures var base := t.GetOr(EmptyTimeline);
            var s := Stamp(t, status, now);
            s.assignedAt == base.assignedAt
            && (if status == InProgress then s.startedAt == Some(now) else s.startedAt == base.startedAt)
            && (if status == Completed then s.completedAt == Some(now) else s.completedAt == base.completedAt)
  {
  }

  /** Repeating a change at the same instant changes nothing more. */
  lemma ChangeStatusIdempotent(orders: seq<Order>, id: string, status: OrderStatus, now: int)
    ensures ChangeStatus(ChangeStatus(orders, id, status, now), id, status, now)
         == ChangeStatus(orders, id, status, now)
  {
  }

  /** A change for an id that no order has leaves the list as it is. */
  lemma ChangeStatusUnknownId(orders: seq<Order>, id: string, status: OrderStatus, now: int)
    requires forall i :: 0 <= i < |orders| ==> orders[i].id != id
    ensures ChangeStatus(orders, id, status, now) == orders
  {
  }

  // ---------------------------------------------------------------- refresh

  const Departments: seq<string> := ["Electronics", "Clothing", "Home Goods"]

  /** The random draws of one refresh: whether an order arrives, then the
      department index, the quantity and price offsets and the extra
      expected minutes (`Math.floor(Math.random() * k)` for k = 3, 3, 1000,
      60). */
  datatype Draws = Draws(addOrder: bool, department: nat, quantity: nat, price: nat, extraMinutes: nat) {
    predicate Valid() {
      department < 3 && quantity < 3 && price < 1000 && extraMinutes < 60
    }
  }

  /** `n.toString().padStart(3, '0')` */
  function Pad3(n: nat): string {
    PadStart(NatToString(n), 3, '0')
  }

  function OrdId(k: nat): string {
    "ord" + NatToString(k)
  }

  /** The order a refresh prepends to a list of `n` orders, in year `year`
      at instant `nowMs`. */
  function NewOrder(n: nat, year: int, nowMs: int, d: Draws): Order
    requires d.Valid()
  {
    Order(OrdId(n + 1), "ORD-" + IntToString(year) + "-" + Pad3(n + 10), "CUST-" + Pad3(n + 10),
      "New Customer", Departments[d.department], nowMs, None, Pending,
      [Item("item-new-" + IntToString(nowMs), "New Product", d.quantity + 1, d.price + 100)],
      Some("Customer Address"), None, None, Some(30 + d.extraMinutes))
  }

  /** The list after a refresh. */
  function Refreshed(orders: seq<Order>, year: int, nowMs: int, d: Draws): (r: seq<Order>)
    requires d.Valid()
    ensures d.addOrder ==> r == [NewOrder(|orders|, year, nowMs, d)] + orders
    ensures !d.addOrder ==> r == orders
  {
    if d.addOrder then [NewOrder(|orders|, year, nowMs, d)] + orders else orders
  }

  /** The delayed half of `handleRefresh`, 1.5 s after the click: its
      closure holds the list `captured` at the click, so an arriving order is
      prepended to that list, while with no arrival the `current` list stays
      untouched (`setOrders` is not called). */
  function Arrived(current: seq<Order>, captured: seq<Order>, year: int, nowMs: int, d: Draws): (r: seq<Order>)
    requires d.Valid()
    ensures d.addOrder ==> |r| == |captured| + 1 && r[1..] == captured && r[0].status == Pending
    ensures !d.addOrder ==> r == current
  {
    if d.addOrder then Refreshed(captured, year, nowMs, d) else current
  }

  /** When nothing changes the list during the wait, the two halves of a
      refresh are the one-step Refreshed. */
  lemma ArrivedWithoutInterleaving(orders: seq<Order>, year: int, nowMs: int, d: Draws)
    requires d.Valid()
    ensures Arrived(orders, orders, year, nowMs, d) == Refreshed(orders, year, nowMs, d)
  {
  }

  /** A status change made while the refresh waits is lost when an order
      arrives: the order at index `i` comes back with its status at the
      click, although the change gave it `status`. */
  lemma StatusChangeLostOnArrival(captured: seq<Order>, id: string, status: OrderStatus, now: int,
                                  year: int, nowMs: int, d: Draws, i: int)
    requires d.Valid() && d.addOrder
    requires 0 <= i < |captured| && captured[i].id == id && captured[i].status != status
    ensures ChangeStatus(captured, id, status, now)[i].status == status
    ensures Arrived(ChangeStatus(captured, id, status, now), captured, year, nowMs, d)[i + 1].status
         == captured[i].status != status
  {
    ChangeStatusOnlyMatching(captured, id, status, now, i);
    var r := Arrived(ChangeStatus(captured, id, status, now), captured, year, nowMs, d);
    assert r[1..][i] == r[i + 1];
  }

  /** A new order is pending at the front, behind it the old list in its
      order; its numbers come from the old length. */
  lemma RefreshPrepends(orders: seq<Order>, year: int, nowMs: int, d: Draws)
    requires d.Valid() && d.addOrder
    ensures var r := Refreshed(orders, year, nowMs, d);
            |r| == |orders| + 1 && r[1..] == orders && r[0].status == Pending
            && r[0].id == "ord" + NatToString(|orders| + 1)
            && r[0].orderId == "ORD-" + IntToString(year) + "-" + Pad3(|orders| + 10)
            && r[0].customerId == "CUST-" + Pad3(|orders| + 10)
  {
    var r := Refreshed(orders, year, nowMs, d);
    assert r[1..] == orders;
  }

  /** The new order holds one item of one to three units at 100 to 1099,
      is expected within 30 to 89 minutes and belongs to one of the three
      departments. */
  lemma NewOrderRanges(n: nat, year: int, nowMs: int, d: Draws)
    requires d.Valid()
    ensures var o := NewOrder(n, year, nowMs, d);
            |o.items| == 1 && 1 <= o.items[0].quantity <= 3 && 100 <= o.items[0].price <= 1099
            && o.expectedCompletionTime.Some? && 30 <= o.expectedCompletionTime.value <= 89
            && o.department in Departments && o.timeline.None? && o.assignedStaff.None?
  {
  }

  /** The order numbers have at least three digits. */
  lemma Pad3Width(n: nat)
    ensures |Pad3(n)| >= 3
    ensures n >= 100 ==> Pad3(n) == NatToString(n)
  {
    if n >= 100 {
      NatToStringAtLeastThree(n);
    }
  }

  lemma NatToStringAtLeastThree(n: nat)
    requires n >= 100
    ensures |NatToString(n)| >= 3
  {
    assert NatToString(n) == NatToString(n / 10) + [DigitChar(n % 10)];
    assert NatToString(n / 10) == NatToString(n / 100) + [DigitChar((n / 10) % 10)];
  }

  function Ids(orders: seq<Order>): (ids: seq<string>)
    ensures |ids| == |orders| && forall i :: 0 <= i < |orders| ==> ids[i] == orders[i].id
  {
    seq(|orders|, i requires 0 <= i < |orders| => orders[i].id)
  }

  /** The ids of a list of n orders are distinct and each is `ord{k}` for
      some k from 1 to n: the fixture list starts so, and refreshes and
      status changes keep it so. */
  ghost predicate Numbered(ids: seq<string>) {
    (forall i, j :: 0 <= i < j < |ids| ==> ids[i] != ids[j])
    && forall i :: 0 <= i < |ids| ==> exists k: nat :: 1 <= k <= |ids| && ids[i] == OrdId(k)
  }

  ghost predicate NumberedIds(orders: seq<Order>) {
    Numbered(Ids(orders))
  }

  lemma OrdIdInjective(k: nat, m: nat)
    requires OrdId(k) == OrdId(m)
    ensures k == m
  {
    assert OrdId(k)[3..] == NatToString(k);
    assert OrdId(m)[3..] == NatToString(m);
    NatToStringInjective(k, m);
  }

  /** The next number is not yet taken. */
  lemma NextIdFresh(ids: seq<string>, i: int)
    requires Numbered(ids) && 0 <= i < |ids|
    ensures ids[i] != OrdId(|ids| + 1)
  {
    var k: nat :| 1 <= k <= |ids| && ids[i] == OrdId(k);
    if ids[i] == OrdId(|ids| + 1) {
      OrdIdInjective(k, |ids| + 1);
    }
  }

  lemma NumberedPrepend(ids: seq<string>)
    requires Numbered(ids)
    ensures Numbered([OrdId(|ids| + 1)] + ids)
  {
    var r := [OrdId(|ids| + 1)] + ids;
    forall i, j | 0 <= i < j < |r|
      ensures r[i] != r[j]
    {
      if i == 0 {
        NextIdFresh(ids, j - 1);
      }
    }
    forall i | 0 <= i < |r|
      ensures exists k: nat :: 1 <= k <= |r| && r[i] == OrdId(k)
    {
      if i == 0 {
        assert r[0] == OrdId(|ids| + 1);
      } else {
        var k: nat :| 1 <= k <= |ids| && ids[i - 1] == OrdId(k);
        assert r[i] == OrdId(k);
      }
    }
  }

  /** A refresh never repeats an id. */
  lemma RefreshKeepsIdsNumbered(orders: seq<Order>, year: int, nowMs: int, d: Draws)
    requires d.Valid() && NumberedIds(orders)
    ensures NumberedIds(Refreshed(orders, year, nowMs, d))
  {
    if d.addOrder {
      var r := Refreshed(orders, year, nowMs, d);
      assert Ids(r) == [OrdId(|orders| + 1)] + Ids(orders);
      NumberedPrepend(Ids(orders));
    }
  }

  /** A status change keeps every id. */
  lemma ChangeStatusKeepsIdsNumbered(orders: seq<Order>, id: string, status: OrderStatus, now: int)
    requires NumberedIds(orders)
    ensures NumberedIds(ChangeStatus(orders, id, status, now))
  {
    assert Ids(ChangeStatus(orders, id, status, now)) == Ids(orders);
  }

  /** The fixture orders are numbered `ord1` to `ord5`, in that order. */
  lemma MockOrdersNumbered()
    ensures NumberedIds(MockData.MockOrders())
  {
    MockOrderIds();
    FirstFiveNumbered();
  }

  /** The board's opening state: every fixture order shown, ids numbered. */
  lemma MockBoard()
    ensures FilteredOrders(MockData.MockOrders(), "", "all") == MockData.MockOrders()
    ensures NumberedIds(MockData.MockOrders())
  {
    ShowsEverything(MockData.MockOrders());
    MockOrdersNumbered();
  }

  lemma MockOrderIds()
    ensures Ids(MockData.MockOrders()) == ["ord1", "ord2", "ord3", "ord4", "ord5"]
  {
  }

  lemma FirstFiveNumbered()
    ensures Numbered(["ord1", "ord2", "ord3", "ord4", "ord5"])
  {
    assert OrdId(1) == "ord1" && OrdId(2) == "ord2" && OrdId(3) == "ord3";
    assert OrdId(4) == "ord4" && OrdId(5) == "ord5";
  }

  // ----------------------------------------------------------------- counts

  function StatusCount(orders: seq<Order>, s: OrderStatus): nat {
    Count(orders, (o: Order) => o.status == s)
  }

  function Statuses(orders: seq<Order>): (r: seq<OrderStatus>)
    ensures |r| == |orders| && forall i :: 0 <= i < |orders| ==> r[i] == orders[i].status
  {
    seq(|orders|, i requires 0 <= i < |orders| => orders[i].status)
  }

  /** A counter is the number of times its status occurs in the list. */
  lemma {:induction false} StatusCountIsMultiplicity(orders: seq<Order>, s: OrderStatus)
    ensures StatusCount(orders, s) == multiset(Statuses(orders))[s]
  {
    if orders != [] {
      StatusCountIsMultiplicity(orders[1..], s);
      assert Statuses(orders) == [orders[0].status] + Statuses(orders[1..]);
    }
  }

  /** Every order has exactly one of the four statuses. */
  lemma {:induction false} CountsPartition(orders: seq<Order>)
    ensures StatusCount(orders, Pending) + StatusCount(orders, InProgress)
            + StatusCount(orders, Completed) + StatusCount(orders, Cancelled) == |orders|
  {
    if orders != [] {
      CountsPartition(orders[1..]);
    }
  }

  /** The three counters never exceed the number of orders; they fall short
      by exactly the cancelled ones. */
  lemma CountersAtMostTotal(orders: seq<Order>)
    ensures StatusCount(orders, Pending) + StatusCount(orders, InProgress) + StatusCount(orders, Completed)
            == |orders| - StatusCount(orders, Cancelled)
    ensures StatusCount(orders, Pending) + StatusCount(orders, InProgress) + StatusCount(orders, Completed) <= |orders|
  {
    CountsPartition(orders);
  }

  /** A new order adds one to the pending counter and nothing elsewhere. */
  lemma RefreshCounts(orders: seq<Order>, year: int, nowMs: int, d: Draws, s: OrderStatus)
    requires d.Valid() && d.addOrder
    ensures StatusCount(Refreshed(orders, year, nowMs, d), s)
         == StatusCount(orders, s) + (if s == Pending then 1 else 0)
  {
    var r := Refreshed(orders, year, nowMs, d);
    assert r[1..] == orders;
  }

  // ------------------------------------------------------------------ board

  class OrdersDashboard {
    var orders: seq<Order>
    var filteredOrders: seq<Order>
    var searchQuery: string
    var activeTab: string
    var isLoading: bool
    /** The list the pending refresh captured at its click. */
    var captured: seq<Order>
    /** The instant shown as "Last updated". */
    var lastUpdated: int

    /** The shown list is the filter of the list, and ids are distinct, in
      the list and in the one a pending refresh holds. */
    ghost predicate Valid()
      reads this
    {
      filteredOrders == FilteredOrders(orders, searchQuery, activeTab) && NumberedIds(orders)
      && NumberedIds(captured)
    }

    /** The board opens on a list of numbered orders, all shown; the
      application opens it on the fixture orders, which qualify
      (`MockBoard`). */
    constructor (initial: seq<Order>, now: int)
      requires NumberedIds(initial)
      ensures Valid()
      ensures orders == initial && filteredOrders == initial
      ensures searchQuery == "" && activeTab == "all" && !isLoading && lastUpdated == now
    {
      orders, filteredOrders := initial, initial;
      searchQuery, activeTab, lastUpdated := "", "all", now;
      isLoading, captured := false, initial;
      ShowsEverything(initial);
    }

    method SetSearchQuery(query: string)
      requires Valid()
      modifies this
      ensures Valid() && searchQuery == query && activeTab == old(activeTab) && orders == old(orders)
      ensures isLoading == old(isLoading) && captured == old(captured) && lastUpdated == old(lastUpdated)
    {
      searchQuery := query;
      filteredOrders := FilteredOrders(orders, searchQuery, activeTab);
    }

    method SetActiveTab(tab: string)
      requires Valid()
      modifies this
      ensures Valid() && activeTab == tab && searchQuery == old(searchQuery) && orders == old(orders)
      ensures isLoading == old(isLoading) && captured == old(captured) && lastUpdated == old(lastUpdated)
    {
      activeTab := tab;
      filteredOrders := FilteredOrders(orders, searchQuery, activeTab);
    }

    /** `handleStatusChange` at instant `now`; the cards stay enabled while
      a refresh waits, so this may come between its two halves. */
    method StatusChange(id: string, status: OrderStatus, now: int)
      requires Valid()
      modifies this
      ensures Valid() && orders == ChangeStatus(old(orders), id, status, now)
      ensures searchQuery == old(searchQuery) && activeTab == old(activeTab)
      ensures isLoading == old(isLoading) && captured == old(captured) && lastUpdated == old(lastUpdated)
    {
      ChangeStatusKeepsIdsNumbered(orders, id, status, now);
      orders := ChangeStatus(orders, id, status, now);
      filteredOrders := FilteredOrders(orders, searchQuery, activeTab);
    }

    /** The click on Refresh: the button is disabled while loading, so a
      click then does nothing; otherwise loading starts and the timer's
      closure captures the list. */
    method Refresh()
      requires Valid()
      modifies this
      ensures Valid() && isLoading
      ensures !old(isLoading) ==> captured == old(orders)
      ensures old(isLoading) ==> captured == old(captured)
      ensures orders == old(orders) && filteredOrders == old(filteredOrders)
      ensures searchQuery == old(searchQuery) && activeTab == old(activeTab) && lastUpdated == old(lastUpdated)
    {
      if !isLoading {
        isLoading, captured := true, orders;
      }
    }

    /** The timer of a pending refresh fires with its draws, the current
      year and instant: Arrived of the current and the captured list, and
      loading ends, updated at that instant. */
    method RefreshArrived(year: int, nowMs: int, d: Draws)
      requires Valid() && d.Valid() && isLoading
      modifies this
      ensures Valid() && !isLoading && orders == Arrived(old(orders), old(captured), year, nowMs, d)
      ensures captured == old(captured) && lastUpdated == nowMs
      ensures searchQuery == old(searchQuery) && activeTab == old(activeTab)
    {
      RefreshKeepsIdsNumbered(captured, year, nowMs, d);
      orders := Arrived(orders, captured, year, nowMs, d);
      isLoading, lastUpdated := false, nowMs;
      filteredOrders := FilteredOrders(orders, searchQuery, activeTab);
    }

    /** The pending, in-progress and completed counters. */
    method Counters() returns (pending: nat, inProgress: nat, completed: nat)
      ensures pending == StatusCount(orders, Pending) && inProgress == StatusCount(orders, InProgress)
      ensures completed == StatusCount(orders, Completed)
      ensures pending == multiset(Statuses(orders))[Pending] && inProgress == multiset(Statuses(orders))[InProgress]
      ensures completed == multiset(Statuses(orders))[Completed]
      ensures pending + inProgress + completed <= |orders|
    {
      pending := |Filter(orders, (o: Order) => o.status == Pending)|;
      inProgress := |Filter(orders, (o: Order) => o.status == InProgress)|;
      completed := |Filter(orders, (o: Order) => o.status == Completed)|;
      CountersAtMostTotal(orders);
      StatusCountIsMultiplicity(orders, Pending);
      StatusCountIsMultiplicity(orders, InProgress);
      StatusCountIsMultiplicity(orders, Completed);
    }
  }
}
