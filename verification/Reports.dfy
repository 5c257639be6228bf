/** The admin reports: fetching every page of a list, then bucketing orders by day. */
module Reports {
  import opened Outcomes

  // ---------- paged fetching ----------

  /** A list response; the server may use either pair of names, or send no object at all. */
  datatype Raw<T> =
    | NotAnObject
    | Envelope(items: Option<seq<T>>, data: Option<seq<T>>, total: Option<int>, totalItems: Option<int>)

  datatype Page<T> = Page(items: seq<T>, total: int)

  function ReadList<T>(raw: Raw<T>): Page<T> {
    match raw
    case NotAnObject => Page([], 0)
    case Envelope(items, data, total, totalItems) =>
      var list := if items.Some? then items.value else if data.Some? then data.value else [];
      Page(list, if total.Some? then total.value else if totalItems.Some? then totalItems.value else |list|)
  }

  /** The server's answer to a page size and a page number. */
  type Server<!T> = (nat, nat) -> Raw<T>

  const PAGE_LIMIT: nat := 100

  function CeilDiv(n: nat, d: nat): nat
    requires d > 0
  {
    (n + d - 1) / d
  }

  /** Pages from..to, in order, their items joined. */
  function Pages<T>(server: Server<T>, limit: nat, from: nat, to: nat): seq<T>
    decreases to
  {
    if to < from || to == 0 then [] else Pages(server, limit, from, to - 1) + ReadList(server(limit, to)).items
  }

  function FetchAll<T>(server: Server<T>, maxLimit: nat): seq<T>
    requires maxLimit > 0
  {
    var limit := Min(maxLimit, PAGE_LIMIT);
    var first := ReadList(server(limit, 1));
    if first.total <= limit then first.items
    else first.items + Pages(server, limit, 2, CeilDiv(first.total, limit))
  }

  /** Page `page` of `data` at `size` items a page. */
  function Slice<T>(data: seq<T>, size: nat, page: nat): seq<T>
    requires page >= 1
  {
    data[Min((page - 1) * size, |data|)..Min(page * size, |data|)]
  }

  /** A stable server: it pages through `data`, never sends more than `cap` items, and tells the true total. */
  ghost predicate Serves<T(!new)>(server: Server<T>, data: seq<T>, cap: nat) {
    forall limit: nat, page: nat :: page >= 1 ==>
      ReadList(server(limit, page)) == Page(Slice(data, Min(limit, cap), page), |data|)
  }

  lemma SliceExtends<T>(data: seq<T>, size: nat, page: nat)
    requires page >= 1
    ensures data[..Min((page - 1) * size, |data|)] + Slice(data, size, page) == data[..Min(page * size, |data|)]
  {
    assert page * size == (page - 1) * size + size;
    JoinSlices(data, Min((page - 1) * size, |data|), Min(page * size, |data|));
  }

  lemma JoinSlices<T>(data: seq<T>, a: nat, b: nat)
    requires a <= b <= |data|
    ensures data[..a] + data[a..b] == data[..b]
  {
  }

  lemma {:induction false} PagesJoin<T(!new)>(server: Server<T>, data: seq<T>, cap: nat, limit: nat, to: nat)
    requires Serves(server, data, cap) && to >= 1
    ensures Slice(data, Min(limit, cap), 1) + Pages(server, limit, 2, to) ==
      data[..Min(to * Min(limit, cap), |data|)]
  {
    var size := Min(limit, cap);
    SliceExtends(data, size, to);
    if to > 1 {
      PagesJoin(server, data, cap, limit, to - 1);
      assert ReadList(server(limit, to)).items == Slice(data, size, to);
      Append(Slice(data, size, 1), Pages(server, limit, 2, to - 1), Slice(data, size, to));
    }
  }

  lemma Append<T>(a: seq<T>, b: seq<T>, c: seq<T>)
    ensures a + (b + c) == (a + b) + c
  {
  }

  /** How many pages are asked for. */
  function PagesAsked(total: nat, limit: nat): nat
    requires limit > 0
  {
    if total <= limit then 1 else CeilDiv(total, limit)
  }

  lemma PagesAskedCover(total: nat, limit: nat)
    requires limit > 0
    ensures PagesAsked(total, limit) >= 1 && PagesAsked(total, limit) * limit >= total
  {
    var pages := CeilDiv(total, limit);
    assert total + limit - 1 == pages * limit + (total + limit - 1) % limit;
  }

  lemma FetchAllIsPages<T>(server: Server<T>, maxLimit: nat)
    requires maxLimit > 0 && ReadList(server(Min(maxLimit, PAGE_LIMIT), 1)).total >= 0
    ensures var limit := Min(maxLimit, PAGE_LIMIT);
            var first := ReadList(server(limit, 1));
            FetchAll(server, maxLimit) == first.items + Pages(server, limit, 2, PagesAsked(first.total, limit))
  {
  }

  /** The result is a prefix of the data: as many full pages, at the size the server really sends, as were asked for. */
  lemma FetchAllIsPrefix<T(!new)>(server: Server<T>, data: seq<T>, cap: nat, maxLimit: nat)
    requires Serves(server, data, cap) && maxLimit > 0
    ensures var limit := Min(maxLimit, PAGE_LIMIT);
            FetchAll(server, maxLimit) == data[..Min(PagesAsked(|data|, limit) * Min(limit, cap), |data|)]
  {
    var limit: nat := Min(maxLimit, PAGE_LIMIT);
    assert ReadList(server(limit, 1)) == Page(Slice(data, Min(limit, cap), 1), |data|);
    FetchAllIsPages(server, maxLimit);
    PagesAskedCover(|data|, limit);
    PagesJoin(server, data, cap, limit, PagesAsked(|data|, limit));
  }

  /**
   * No row is lost or repeated, whatever the total, exactly when the server honours the page size or what it sends
   * instead still adds up. A server that cuts pages short loses the tail.
   */
  lemma FetchAllIsCompleteIff<T(!new)>(server: Server<T>, data: seq<T>, cap: nat, maxLimit: nat)
    requires Serves(server, data, cap) && maxLimit > 0
    ensures var limit := Min(maxLimit, PAGE_LIMIT);
            FetchAll(server, maxLimit) == data <==> cap >= limit || |data| <= PagesAsked(|data|, limit) * cap
  {
    FetchAllIsPrefix(server, data, cap, maxLimit);
    PagesAskedCover(|data|, Min(maxLimit, PAGE_LIMIT));
    assert data[..|data|] == data;
  }

  // ---------- buckets ----------

  const DAY_MS: nat := 24 * 60 * 60 * 1000

  datatype Status = Paid | Completed | Delivered | Cancelled | Refunded | Other

  datatype Order = Order(createdAt: int, amount: int, status: Status)

  datatype Filters = Filters(from: int, to: int)

  /** The calendar day, in UTC, an instant falls on. */
  function Day(instant: int): int { instant / DAY_MS }

  predicate InDateRange(instant: int, filters: Filters) {
    filters.from <= instant <= filters.to
  }

  function InRange(orders: seq<Order>, filters: Filters): seq<Order> {
    if |orders| == 0 then []
    else
      InRange(orders[..|orders| - 1], filters) +
      if InDateRange(orders[|orders| - 1].createdAt, filters) then [orders[|orders| - 1]] else []
  }

  /** Filtering keeps every in-range order as often as it occurs, and nothing else. */
  lemma {:induction false} InRangeKeeps(orders: seq<Order>, filters: Filters, o: Order)
    ensures multiset(InRange(orders, filters))[o] ==
      if filters.from <= o.createdAt <= filters.to then multiset(orders)[o] else 0
  {
    if |orders| > 0 {
      var front, last := orders[..|orders| - 1], orders[|orders| - 1];
      InRangeKeeps(front, filters, o);
      assert orders == front + [last];
    }
  }

  /** What a report can add up. */
  datatype Measure = Orders | Revenue | PaidOrders | CancelledOrders | RefundedOrders

  function Weight(m: Measure, o: Order): int {
    match m
    case Orders => 1
    case Revenue => if o.status.Cancelled? || o.status.Refunded? then 0 else o.amount
    case PaidOrders => if o.status.Paid? || o.status.Completed? || o.status.Delivered? then 1 else 0
    case CancelledOrders => if o.status.Cancelled? then 1 else 0
    case RefundedOrders => if o.status.Refunded? then 1 else 0
  }

  function Total(m: Measure, orders: seq<Order>): int {
    if |orders| == 0 then 0 else Total(m, orders[..|orders| - 1]) + Weight(m, orders[|orders| - 1])
  }

  function WeightOn(m: Measure, o: Order, day: int): int {
    if Day(o.createdAt) == day then Weight(m, o) else 0
  }

  function DayTotal(m: Measure, orders: seq<Order>, day: int): int {
    if |orders| == 0 then 0 else DayTotal(m, orders[..|orders| - 1], day) + WeightOn(m, orders[|orders| - 1], day)
  }

  datatype RevenueRow = RevenueRow(date: int, grossRevenue: int, netRevenue: int, orderCount: int)

  datatype OrdersRow = OrdersRow(date: int, orderCount: int, paidCount: int, cancelledCount: int, refundedCount: int)

  ghost function RevenueOn(orders: seq<Order>, day: int): RevenueRow {
    RevenueRow(day, DayTotal(Revenue, orders, day), DayTotal(Revenue, orders, day), DayTotal(Orders, orders, day))
  }

  ghost function OrdersOn(orders: seq<Order>, day: int): OrdersRow {
    OrdersRow(day, DayTotal(Orders, orders, day), DayTotal(PaidOrders, orders, day),
              DayTotal(CancelledOrders, orders, day), DayTotal(RefundedOrders, orders, day))
  }

  function RevenueDates(rows: seq<RevenueRow>): seq<int> {
    seq(|rows|, k requires 0 <= k < |rows| => rows[k].date)
  }

  function OrdersDates(rows: seq<OrdersRow>): seq<int> {
    seq(|rows|, k requires 0 <= k < |rows| => rows[k].date)
  }

  ghost predicate Occurs(orders: seq<Order>, day: int) {
    exists i :: 0 <= i < |orders| && Day(orders[i].createdAt) == day
  }

  lemma OneMore(m: Measure, orders: seq<Order>, k: nat, day: int)
    requires k < |orders|
    ensures DayTotal(m, orders[..k + 1], day) == DayTotal(m, orders[..k], day) + WeightOn(m, orders[k], day)
    ensures Occurs(orders[..k + 1], day) <==> Occurs(orders[..k], day) || Day(orders[k].createdAt) == day
  {
    assert orders[..k + 1][..k] == orders[..k];
    if Occurs(orders[..k], day) {
      var i :| 0 <= i < k && Day(orders[..k][i].createdAt) == day;
      assert Day(orders[..k + 1][i].createdAt) == day;
    }
    if Day(orders[k].createdAt) == day {
      assert Day(orders[..k + 1][k].createdAt) == day;
    }
    if Occurs(orders[..k + 1], day) && Day(orders[k].createdAt) != day {
      var i :| 0 <= i < k + 1 && Day(orders[..k + 1][i].createdAt) == day;
      assert Day(orders[..k][i].createdAt) == day;
    }
  }

  lemma OneMoreOnEachDay(m: Measure, orders: seq<Order>, k: nat)
    requires k < |orders|
    ensures forall day ::
      DayTotal(m, orders[..k + 1], day) == DayTotal(m, orders[..k], day) + WeightOn(m, orders[k], day)
    ensures forall day :: Occurs(orders[..k + 1], day) <==> Occurs(orders[..k], day) || Day(orders[k].createdAt) == day
  {
    forall day
      ensures DayTotal(m, orders[..k + 1], day) == DayTotal(m, orders[..k], day) + WeightOn(m, orders[k], day)
      ensures Occurs(orders[..k + 1], day) <==> Occurs(orders[..k], day) || Day(orders[k].createdAt) == day
    {
      OneMore(m, orders, k, day);
    }
  }

  lemma {:induction false} NothingOnOtherDays(m: Measure, orders: seq<Order>, day: int)
    requires !Occurs(orders, day)
    ensures DayTotal(m, orders, day) == 0
  {
    if |orders| > 0 {
      var front := orders[..|orders| - 1];
      forall i | 0 <= i < |front| ensures Day(front[i].createdAt) != day {
        assert Day(orders[i].createdAt) != day;
      }
      NothingOnOtherDays(m, front, day);
    }
  }

  ghost predicate Increasing(days: seq<int>) {
    forall j, k :: 0 <= j < k < |days| ==> days[j] < days[k]
  }

  /** The days of `orders`, each once, in order. */
  ghost predicate DaysOf(days: seq<int>, orders: seq<Order>) {
    Increasing(days) && forall d :: d in days <==> Occurs(orders, d)
  }

  function Insert(days: seq<int>, day: int): (r: seq<int>)
    ensures multiset(r) == multiset(days) + multiset{day}
  {
    if |days| == 0 || days[|days| - 1] < day then days + [day]
    else
      assert days == days[..|days| - 1] + [days[|days| - 1]];
      Insert(days[..|days| - 1], day) + [days[|days| - 1]]
  }

  lemma {:induction false} InsertKeepsIncreasing(days: seq<int>, day: int)
    requires Increasing(days) && day !in days
    ensures Increasing(Insert(days, day))
  {
    if |days| > 0 && days[|days| - 1] >= day {
      var front, last := days[..|days| - 1], days[|days| - 1];
      InsertKeepsIncreasing(front, day);
      var r := Insert(front, day);
      forall j | 0 <= j < |r| ensures r[j] < last {
        assert r[j] in multiset(r);
        assert r[j] == day || r[j] in front;
      }
    }
  }

  lemma InsertMembers(days: seq<int>, day: int)
    ensures forall d :: d in Insert(days, day) <==> d in days || d == day
  {
    forall d ensures d in Insert(days, day) <==> d in days || d == day {
      assert d in Insert(days, day) <==> d in multiset(Insert(days, day));
      assert d in days <==> d in multiset(days);
    }
  }

  /** The dates in ascending order. */
  method Sorted(dates: seq<int>) returns (days: seq<int>)
    requires forall j, k :: 0 <= j < k < |dates| ==> dates[j] != dates[k]
    ensures Increasing(days) && forall d :: d in days <==> d in dates
  {
    days := [];
    for i := 0 to |dates|
      invariant Increasing(days) && forall d :: d in days <==> d in dates[..i]
    {
      InsertKeepsIncreasing(days, dates[i]);
      InsertMembers(days, dates[i]);
      days := Insert(days, dates[i]);
    }
    assert dates[..|dates|] == dates;
  }

  /** One more order changes its own day's row and no other; the row starts from nothing on a new day. */
  lemma RevenueGrows(orders: seq<Order>, k: nat)
    requires k < |orders|
    ensures var o := orders[k];
            var date := Day(o.createdAt);
            var row := if Occurs(orders[..k], date) then RevenueOn(orders[..k], date) else RevenueRow(date, 0, 0, 0);
            var gross := row.grossRevenue + Weight(Revenue, o);
            && RevenueOn(orders[..k + 1], date) == RevenueRow(date, gross, gross, row.orderCount + 1)
            && (forall d :: d != date ==> RevenueOn(orders[..k + 1], d) == RevenueOn(orders[..k], d))
            && (forall d :: Occurs(orders[..k + 1], d) <==> Occurs(orders[..k], d) || d == date)
  {
    var date := Day(orders[k].createdAt);
    OneMoreOnEachDay(Orders, orders, k);
    OneMoreOnEachDay(Revenue, orders, k);
    if !Occurs(orders[..k], date) {
      NothingOnOtherDays(Orders, orders[..k], date);
      NothingOnOtherDays(Revenue, orders[..k], date);
    }
  }

  lemma OrdersGrow(orders: seq<Order>, k: nat)
    requires k < |orders|
    ensures var o := orders[k];
            var date := Day(o.createdAt);
            var row := if Occurs(orders[..k], date) then OrdersOn(orders[..k], date) else OrdersRow(date, 0, 0, 0, 0);
            && OrdersOn(orders[..k + 1], date) ==
              OrdersRow(date, row.orderCount + 1, row.paidCount + Weight(PaidOrders, o),
                        row.cancelledCount + Weight(CancelledOrders, o), row.refundedCount + Weight(RefundedOrders, o))
            && (forall d :: d != date ==> OrdersOn(orders[..k + 1], d) == OrdersOn(orders[..k], d))
            && (forall d :: Occurs(orders[..k + 1], d) <==> Occurs(orders[..k], d) || d == date)
  {
    var date := Day(orders[k].createdAt);
    OneMoreOnEachDay(Orders, orders, k);
    OneMoreOnEachDay(PaidOrders, orders, k);
    OneMoreOnEachDay(CancelledOrders, orders, k);
    OneMoreOnEachDay(RefundedOrders, orders, k);
    if !Occurs(orders[..k], date) {
      NothingOnOtherDays(Orders, orders[..k], date);
      NothingOnOtherDays(PaidOrders, orders[..k], date);
      NothingOnOtherDays(CancelledOrders, orders[..k], date);
      NothingOnOtherDays(RefundedOrders, orders[..k], date);
    }
  }

  /** One row per day that has orders, in date order, holding that day's own totals. */
  ghost predicate IsRevenueOf(rows: seq<RevenueRow>, orders: seq<Order>) {
    && DaysOf(RevenueDates(rows), orders)
    && forall k :: 0 <= k < |rows| ==> rows[k] == RevenueOn(orders, rows[k].date)
  }

  ghost predicate IsOrdersOf(rows: seq<OrdersRow>, orders: seq<Order>) {
    && DaysOf(OrdersDates(rows), orders)
    && forall k :: 0 <= k < |rows| ==> rows[k] == OrdersOn(orders, rows[k].date)
  }

  function RevenueCounts(rows: seq<RevenueRow>): seq<int> {
    seq(|rows|, k requires 0 <= k < |rows| => rows[k].orderCount)
  }

  function RevenueGross(rows: seq<RevenueRow>): seq<int> {
    seq(|rows|, k requires 0 <= k < |rows| => rows[k].grossRevenue)
  }

  function OrdersCounts(rows: seq<OrdersRow>): seq<int> {
    seq(|rows|, k requires 0 <= k < |rows| => rows[k].orderCount)
  }

  /** Every order is counted once, and the revenue of those neither cancelled nor refunded is all there. */
  ghost predicate RevenueConserved(rows: seq<RevenueRow>, orders: seq<Order>) {
    Sum(RevenueCounts(rows)) == |orders| && Sum(RevenueGross(rows)) == Total(Revenue, orders)
  }

  /** Every order is counted once, and under at most one of the three statuses. */
  ghost predicate OrdersConserved(rows: seq<OrdersRow>, orders: seq<Order>) {
    && Sum(OrdersCounts(rows)) == |orders|
    && forall k :: 0 <= k < |rows| ==>
      rows[k].paidCount + rows[k].cancelledCount + rows[k].refundedCount <= rows[k].orderCount
  }

  lemma RevenueIsConserved(rows: seq<RevenueRow>, orders: seq<Order>)
    requires IsRevenueOf(rows, orders)
    ensures RevenueConserved(rows, orders)
  {
    ColumnConserves(Orders, orders, RevenueDates(rows), RevenueCounts(rows));
    ColumnConserves(Revenue, orders, RevenueDates(rows), RevenueGross(rows));
    OrdersAreCounted(orders);
  }

  lemma OrdersAreConserved(rows: seq<OrdersRow>, orders: seq<Order>)
    requires IsOrdersOf(rows, orders)
    ensures OrdersConserved(rows, orders)
  {
    ColumnConserves(Orders, orders, OrdersDates(rows), OrdersCounts(rows));
    OrdersAreCounted(orders);
    forall k | 0 <= k < |rows|
      ensures rows[k].paidCount + rows[k].cancelledCount + rows[k].refundedCount <= rows[k].orderCount
    {
      StatusesDoNotOverlap(orders, rows[k].date);
    }
  }

  method RevenueReport(orders: seq<Order>, filters: Filters) returns (rows: seq<RevenueRow>)
    ensures IsRevenueOf(rows, InRange(orders, filters)) && RevenueConserved(rows, InRange(orders, filters))
  {
    var inRange := InRange(orders, filters);
    var buckets: map<int, RevenueRow> := map[];
    var dates: seq<int> := [];
    for i := 0 to |inRange|
      invariant forall d :: d in buckets <==> Occurs(inRange[..i], d)
      invariant forall d :: d in buckets <==> d in dates
      invariant forall j, k :: 0 <= j < k < |dates| ==> dates[j] != dates[k]
      invariant forall d :: d in buckets ==> buckets[d] == RevenueOn(inRange[..i], d)
    {
      var o := inRange[i];
      var date := Day(o.createdAt);
      var row := if date in buckets then buckets[date] else RevenueRow(date, 0, 0, 0);
      row := row.(orderCount := row.orderCount + 1);
      if !o.status.Cancelled? && !o.status.Refunded? {
        row := row.(grossRevenue := row.grossRevenue + o.amount, netRevenue := row.netRevenue + o.amount);
      }
      if date !in buckets {
        dates := dates + [date];
      }
      buckets := buckets[date := row];
      RevenueGrows(inRange, i);
    }
    assert inRange[..|inRange|] == inRange;
    var ordered := Sorted(dates);
    assert forall k :: 0 <= k < |ordered| ==> ordered[k] in ordered;
    rows := seq(|ordered|, k requires 0 <= k < |ordered| => buckets[ordered[k]]);
    assert RevenueDates(rows) == ordered;
    RevenueIsConserved(rows, inRange);
  }

  method OrdersReport(orders: seq<Order>, filters: Filters) returns (rows: seq<OrdersRow>)
    ensures IsOrdersOf(rows, InRange(orders, filters)) && OrdersConserved(rows, InRange(orders, filters))
  {
    var inRange := InRange(orders, filters);
    var buckets: map<int, OrdersRow> := map[];
    var dates: seq<int> := [];
    for i := 0 to |inRange|
      invariant forall d :: d in buckets <==> Occurs(inRange[..i], d)
      invariant forall d :: d in buckets <==> d in dates
      invariant forall j, k :: 0 <= j < k < |dates| ==> dates[j] != dates[k]
      invariant forall d :: d in buckets ==> buckets[d] == OrdersOn(inRange[..i], d)
    {
      var o := inRange[i];
      var date := Day(o.createdAt);
      var row := if date in buckets then buckets[date] else OrdersRow(date, 0, 0, 0, 0);
      row := row.(orderCount := row.orderCount + 1);
      if o.status.Paid? || o.status.Completed? || o.status.Delivered? {
        row := row.(paidCount := row.paidCount + 1);
      }
      if o.status.Cancelled? {
        row := row.(cancelledCount := row.cancelledCount + 1);
      }
      if o.status.Refunded? {
        row := row.(refundedCount := row.refundedCount + 1);
      }
      if date !in buckets {
        dates := dates + [date];
      }
      buckets := buckets[date := row];
      OrdersGrow(inRange, i);
    }
    assert inRange[..|inRange|] == inRange;
    var ordered := Sorted(dates);
    assert forall k :: 0 <= k < |ordered| ==> ordered[k] in ordered;
    rows := seq(|ordered|, k requires 0 <= k < |ordered| => buckets[ordered[k]]);
    assert OrdersDates(rows) == ordered;
    OrdersAreConserved(rows, inRange);
  }

  // ---------- conservation ----------

  function SumOverDays(m: Measure, orders: seq<Order>, days: seq<int>): int {
    if |days| == 0 then 0 else SumOverDays(m, orders, days[..|days| - 1]) + DayTotal(m, orders, days[|days| - 1])
  }

  lemma {:induction false} EmptySum(m: Measure, days: seq<int>)
    ensures SumOverDays(m, [], days) == 0
  {
    if |days| > 0 {
      EmptySum(m, days[..|days| - 1]);
    }
  }

  /** One more order raises the sum by its weight if its day is listed, and not at all otherwise. */
  lemma {:induction false} SumGrows(m: Measure, orders: seq<Order>, days: seq<int>)
    requires |orders| > 0 && Increasing(days)
    ensures var o := orders[|orders| - 1];
            SumOverDays(m, orders, days) == SumOverDays(m, orders[..|orders| - 1], days) +
            (if Day(o.createdAt) in days then Weight(m, o) else 0)
  {
    if |days| > 0 {
      var front, last := days[..|days| - 1], days[|days| - 1];
      SumGrows(m, orders, front);
      assert days == front + [last];
    }
  }

  lemma {:induction false} SumIsTotal(m: Measure, orders: seq<Order>, days: seq<int>)
    requires Increasing(days) && forall i :: 0 <= i < |orders| ==> Day(orders[i].createdAt) in days
    ensures SumOverDays(m, orders, days) == Total(m, orders)
  {
    if |orders| == 0 {
      EmptySum(m, days);
      assert orders == [];
    } else {
      SumIsTotal(m, orders[..|orders| - 1], days);
      SumGrows(m, orders, days);
    }
  }

  function Sum(column: seq<int>): int {
    if |column| == 0 then 0 else Sum(column[..|column| - 1]) + column[|column| - 1]
  }

  lemma {:induction false} ColumnIsSumOverDays(m: Measure, orders: seq<Order>, days: seq<int>, column: seq<int>)
    requires |column| == |days| && forall k :: 0 <= k < |days| ==> column[k] == DayTotal(m, orders, days[k])
    ensures Sum(column) == SumOverDays(m, orders, days)
  {
    if |days| > 0 {
      ColumnIsSumOverDays(m, orders, days[..|days| - 1], column[..|days| - 1]);
    }
  }

  /** Whatever a report column adds up, its rows together hold exactly what the reported orders hold. */
  lemma ColumnConserves(m: Measure, orders: seq<Order>, days: seq<int>, column: seq<int>)
    requires DaysOf(days, orders)
    requires |column| == |days| && forall k :: 0 <= k < |days| ==> column[k] == DayTotal(m, orders, days[k])
    ensures Sum(column) == Total(m, orders)
  {
    forall i | 0 <= i < |orders| ensures Day(orders[i].createdAt) in days {
      assert Occurs(orders, Day(orders[i].createdAt));
    }
    SumIsTotal(m, orders, days);
    ColumnIsSumOverDays(m, orders, days, column);
  }

  lemma {:induction false} OrdersAreCounted(orders: seq<Order>)
    ensures Total(Orders, orders) == |orders|
  {
    if |orders| > 0 {
      OrdersAreCounted(orders[..|orders| - 1]);
    }
  }

  /** No order is counted under two of the three statuses. */
  lemma {:induction false} StatusesDoNotOverlap(orders: seq<Order>, day: int)
    ensures var row := OrdersOn(orders, day);
            && row.paidCount >= 0 && row.cancelledCount >= 0 && row.refundedCount >= 0
            && row.paidCount + row.cancelledCount + row.refundedCount <= row.orderCount
  {
    if |orders| > 0 {
      StatusesDoNotOverlap(orders[..|orders| - 1], day);
    }
  }

  // ---------- the rows, in the figures of the orders ----------

  /** The orders created on the UTC day `day` with one of `statuses`. */
  ghost function Among(orders: seq<Order>, day: int, statuses: set<Status>): set<nat> {
    set i | 0 <= i < |orders|
      && day * 86_400_000 <= orders[i].createdAt < (day + 1) * 86_400_000 && orders[i].status in statuses
  }

  /** What those orders come to. */
  function Takings(orders: seq<Order>, day: int, statuses: set<Status>): int {
    if |orders| == 0 then 0
    else
      var last := orders[|orders| - 1];
      var onDay := day * 86_400_000 <= last.createdAt < (day + 1) * 86_400_000;
      Takings(orders[..|orders| - 1], day, statuses) + (if onDay && last.status in statuses then last.amount else 0)
  }

  lemma DayLaw(instant: int, day: int)
    ensures Day(instant) == day <==> day * 86_400_000 <= instant < (day + 1) * 86_400_000
  {
  }

  lemma AmongGrows(orders: seq<Order>, day: int, statuses: set<Status>)
    requires |orders| > 0
    ensures var n: nat := |orders| - 1;
      var counted := Day(orders[n].createdAt) == day && orders[n].status in statuses;
      |Among(orders, day, statuses)| == |Among(orders[..n], day, statuses)| + (if counted then 1 else 0)
  {
    var n: nat := |orders| - 1;
    var before, after := Among(orders[..n], day, statuses), Among(orders, day, statuses);
    DayLaw(orders[n].createdAt, day);
    assert forall i :: 0 <= i < n ==> orders[..n][i] == orders[i];
    if Day(orders[n].createdAt) == day && orders[n].status in statuses {
      assert after == before + {n} && n !in before;
    } else {
      assert after == before;
    }
  }

  const ALL_STATUSES: set<Status> := {Paid, Completed, Delivered, Cancelled, Refunded, Status.Other}

  lemma AnyStatus(status: Status)
    ensures status in ALL_STATUSES
  {
    match status
    case Paid =>
    case _ =>
  }

  lemma {:induction false} CountsAreCardinalities(orders: seq<Order>, day: int)
    ensures DayTotal(Orders, orders, day) == |Among(orders, day, ALL_STATUSES)|
    ensures DayTotal(PaidOrders, orders, day) == |Among(orders, day, {Paid, Completed, Delivered})|
    ensures DayTotal(CancelledOrders, orders, day) == |Among(orders, day, {Cancelled})|
    ensures DayTotal(RefundedOrders, orders, day) == |Among(orders, day, {Refunded})|
  {
    if |orders| > 0 {
      CountsAreCardinalities(orders[..|orders| - 1], day);
      AnyStatus(orders[|orders| - 1].status);
      AmongGrows(orders, day, ALL_STATUSES);
      AmongGrows(orders, day, {Paid, Completed, Delivered});
      AmongGrows(orders, day, {Cancelled});
      AmongGrows(orders, day, {Refunded});
    }
  }

  lemma {:induction false} RevenueIsTakings(orders: seq<Order>, day: int)
    ensures DayTotal(Revenue, orders, day) == Takings(orders, day, {Paid, Completed, Delivered, Status.Other})
  {
    if |orders| > 0 {
      RevenueIsTakings(orders[..|orders| - 1], day);
      DayLaw(orders[|orders| - 1].createdAt, day);
    }
  }

  /** A revenue row counts every order of its day, and takes in the amounts of those neither cancelled nor refunded. */
  lemma RevenueRowLaw(rows: seq<RevenueRow>, orders: seq<Order>, k: nat)
    requires IsRevenueOf(rows, orders) && k < |rows|
    ensures var row := rows[k];
      && row.orderCount == |Among(orders, row.date, ALL_STATUSES)| > 0
      && row.grossRevenue == row.netRevenue == Takings(orders, row.date, ALL_STATUSES - {Cancelled, Refunded})
  {
    var row := rows[k];
    CountsAreCardinalities(orders, row.date);
    RevenueIsTakings(orders, row.date);
    assert ALL_STATUSES - {Cancelled, Refunded} == {Paid, Completed, Delivered, Status.Other};
    assert RevenueDates(rows)[k] == row.date;
    SomethingOnThatDay(orders, row.date);
  }

  /** An orders row counts every order of its day, and each of the three columns those in its statuses. */
  lemma OrdersRowLaw(rows: seq<OrdersRow>, orders: seq<Order>, k: nat)
    requires IsOrdersOf(rows, orders) && k < |rows|
    ensures var row := rows[k];
      && row.orderCount == |Among(orders, row.date, ALL_STATUSES)| > 0
      && row.paidCount == |Among(orders, row.date, {Paid, Completed, Delivered})|
      && row.cancelledCount == |Among(orders, row.date, {Cancelled})|
      && row.refundedCount == |Among(orders, row.date, {Refunded})|
  {
    CountsAreCardinalities(orders, rows[k].date);
    assert OrdersDates(rows)[k] == rows[k].date;
    SomethingOnThatDay(orders, rows[k].date);
  }

  lemma SomethingOnThatDay(orders: seq<Order>, day: int)
    requires Occurs(orders, day)
    ensures |Among(orders, day, ALL_STATUSES)| > 0
  {
    var i: nat :| i < |orders| && Day(orders[i].createdAt) == day;
    DayLaw(orders[i].createdAt, day);
    AnyStatus(orders[i].status);
    assert i in Among(orders, day, ALL_STATUSES);
  }

  /** A list is read under either pair of names, and counted when no total came with it. */
  lemma ReadListLaw<T>(list: seq<T>, other: Option<seq<T>>, n: int, m: Option<int>)
    ensures ReadList(Envelope(Some(list), other, Some(n), m)) == Page(list, n)
    ensures ReadList(Envelope(None, Some(list), None, Some(n))) == Page(list, n)
    ensures ReadList(Envelope(Some(list), other, None, None)) == Page(list, |list|)
    ensures ReadList(Envelope(None, Some(list), None, None)) == Page(list, |list|)
    ensures ReadList(Raw<T>.Envelope(None, None, None, None)) == ReadList(Raw<T>.NotAnObject) == Page([], 0)
  {
  }

  // ---------- whole reports ----------

  const MAX_LIMIT: nat := 200

  /** The revenue report: every page of the orders, then the buckets. */
  method FetchRevenueReport(server: Server<Order>, filters: Filters) returns (rows: seq<RevenueRow>)
    ensures IsRevenueOf(rows, InRange(FetchAll(server, MAX_LIMIT), filters))
  {
    var orders := FetchAll(server, MAX_LIMIT);
    rows := RevenueReport(orders, filters);
  }

  method FetchOrdersReport(server: Server<Order>, filters: Filters) returns (rows: seq<OrdersRow>)
    ensures IsOrdersOf(rows, InRange(FetchAll(server, MAX_LIMIT), filters))
  {
    var orders := FetchAll(server, MAX_LIMIT);
    rows := OrdersReport(orders, filters);
  }

  /**
   * Over a stable server that honours the page size, both reports cover the server's whole list, whatever its length:
   * each in-range order is counted once and on its own day, and the revenue is all there.
   */
  lemma ReportsCoverTheList(server: Server<Order>, data: seq<Order>, cap: nat, filters: Filters,
                            revenue: seq<RevenueRow>, orders: seq<OrdersRow>)
    requires Serves(server, data, cap) && cap >= 100
    requires IsRevenueOf(revenue, InRange(FetchAll(server, MAX_LIMIT), filters))
    requires IsOrdersOf(orders, InRange(FetchAll(server, MAX_LIMIT), filters))
    ensures IsRevenueOf(revenue, InRange(data, filters)) && RevenueConserved(revenue, InRange(data, filters))
    ensures IsOrdersOf(orders, InRange(data, filters)) && OrdersConserved(orders, InRange(data, filters))
  {
    FetchAllIsCompleteIff(server, data, cap, MAX_LIMIT);
    RevenueIsConserved(revenue, InRange(data, filters));
    OrdersAreConserved(orders, InRange(data, filters));
  }
}
