/** The admin order view's client-side logic
    (client/src/pages/AdminOrders.jsx:49-92): the `filteredOrders` predicate
    over the full order list, and the `statusChartData` bucketing of the
    filtered orders by status. */
module AdminOrders {
  import opened Common
  import opened Text
  import OrderStatus

  /** An order as the admin list receives it. The joined user may be missing
      (then so are its name and email); `status` is whatever string the
      store holds; totals are integer cents; `createdAt` is in milliseconds
      on the local clock. */
  datatype AdminOrder = AdminOrder(
    userName: Option<string>,
    userEmail: Option<string>,
    status: string,
    total: int,
    createdAt: int)

  /** The four filter inputs. `status` is `"all"` or a status name; `from`
      and `to` are calendar days counted on the local clock, `None` standing
      for an empty date input. */
  datatype Filters = Filters(user: string, status: string, from: Option<int>, to: Option<int>)

  const MsPerDay: int := 86_400_000

  /** The instant `new Date(day + 'T00:00:00')`. */
  function DayStart(day: int): int {
    day * MsPerDay
  }

  /** The instant `new Date(day + 'T23:59:59')`: 23:59:59.000 of that day. */
  function DayEnd(day: int): int {
    day * MsPerDay + 86_399_000
  }

  /** The user filter: an empty or blank query accepts everything, otherwise
      the trimmed, lower-cased query must occur in the lower-cased name or
      email (a missing one counting as the empty string). */
  predicate MatchesUser(query: string, o: AdminOrder) {
    var text := Trim(query);
    text == [] ||
    var needle := Lower(text);
    Includes(Lower(o.userName.GetOr("")), needle) || Includes(Lower(o.userEmail.GetOr("")), needle)
  }

  predicate MatchesStatus(wanted: string, o: AdminOrder) {
    wanted == "all" || o.status == wanted
  }

  predicate AfterFrom(from: Option<int>, o: AdminOrder) {
    from.None? || !(o.createdAt < DayStart(from.value))
  }

  predicate BeforeTo(to: Option<int>, o: AdminOrder) {
    to.None? || !(o.createdAt > DayEnd(to.value))
  }

  /** The callback passed to `orders.filter`. */
  predicate Keep(f: Filters, o: AdminOrder) {
    MatchesUser(f.user, o) && MatchesStatus(f.status, o) && AfterFrom(f.from, o) && BeforeTo(f.to, o)
  }

  /** `filteredOrders`: exactly the orders `Keep` accepts, each as often as
      it occurs, in their original order. */
  function FilteredOrders(orders: seq<AdminOrder>, f: Filters): (r: seq<AdminOrder>)
    ensures SubsequenceOf(r, orders)
    ensures forall o :: o in r <==> o in orders && Keep(f, o)
    ensures forall o :: multiset(r)[o] == if Keep(f, o) then multiset(orders)[o] else 0
  {
    if orders == [] then []
    else
      var rest := FilteredOrders(orders[1..], f);
      assert orders == [orders[0]] + orders[1..];
      if Keep(f, orders[0]) then
        [orders[0]] + rest
      else
        SubsequenceOfCons(rest, orders[0], orders[1..]);
        rest
  }

  /** The user filter, stated with substring positions: blank queries pass
      every order; otherwise an order passes exactly when the trimmed,
      lower-cased query occurs at some position of its lower-cased name or
      email. */
  lemma UserFilterSpec(query: string, o: AdminOrder)
    ensures AllSpace(query) ==> MatchesUser(query, o)
    ensures !AllSpace(query) ==>
      var needle := Lower(Trim(query));
      (MatchesUser(query, o) <==>
        (exists i :: OccursAt(Lower(o.userName.GetOr("")), needle, i)) ||
        (exists i :: OccursAt(Lower(o.userEmail.GetOr("")), needle, i)))
  {
    TrimBlank(query);
    var needle := Lower(Trim(query));
    IncludesIff(Lower(o.userName.GetOr("")), needle);
    IncludesIff(Lower(o.userEmail.GetOr("")), needle);
  }

  /** `'all'` accepts every status; any other value exactly that status. */
  lemma StatusFilterSpec(wanted: string, o: AdminOrder)
    ensures wanted == "all" ==> MatchesStatus(wanted, o)
    ensures wanted != "all" ==> (MatchesStatus(wanted, o) <==> o.status == wanted)
  {
  }

  /** Both date bounds are inclusive: `from` admits the day from 00:00:00.000
      on, `to` admits up to 23:59:59.000 of its day. An order in the last
      second of the `to` day after 23:59:59.000 is left out. */
  lemma DateBoundsSpec(day: int, o: AdminOrder)
    ensures AfterFrom(Some(day), o) <==> DayStart(day) <= o.createdAt
    ensures BeforeTo(Some(day), o) <==> o.createdAt <= DayStart(day) + 86_399_000
    ensures o.createdAt == DayStart(day) + 86_399_500 ==> !BeforeTo(Some(day), o)
    ensures DayStart(day) <= o.createdAt <= DayStart(day) + 86_340_000 ==>
              AfterFrom(Some(day), o) && BeforeTo(Some(day), o) && !BeforeTo(Some(day - 1), o)
  {
  }

  /** With every filter empty the list is shown unchanged. */
  lemma {:induction false} NoFiltersKeepAll(orders: seq<AdminOrder>, f: Filters)
    requires AllSpace(f.user) && f.status == "all" && f.from.None? && f.to.None?
    ensures FilteredOrders(orders, f) == orders
    decreases |orders|
  {
    if orders != [] {
      EmptyFiltersKeep(f, orders[0]);
      NoFiltersKeepAll(orders[1..], f);
      assert [orders[0]] + orders[1..] == orders;
    }
  }

  lemma EmptyFiltersKeep(f: Filters, o: AdminOrder)
    requires AllSpace(f.user) && f.status == "all" && f.from.None? && f.to.None?
    ensures Keep(f, o)
  {
    UserFilterSpec(f.user, o);
  }

  // ---------------------------------------------------------------------
  // Bucketing by status

  /** The `statuses` list of the chart: the five status names in order. */
  const Statuses: seq<string> := OrderStatus.Allowed

  datatype ChartRow = ChartRow(status: string, count: int, total: int)

  /** `filteredOrders.filter((o) => o.status === status)`. */
  function WithStatus(os: seq<AdminOrder>, s: string): (r: seq<AdminOrder>)
    ensures |r| <= |os|
    ensures forall o :: o in r <==> o in os && o.status == s
  {
    if os == [] then []
    else if os[0].status == s then [os[0]] + WithStatus(os[1..], s)
    else WithStatus(os[1..], s)
  }

  /** `WithStatus` keeps the orders with the given status in their original
      order, each exactly as often as it occurs, and drops all others. */
  lemma {:induction false} WithStatusExact(os: seq<AdminOrder>, s: string)
    ensures SubsequenceOf(WithStatus(os, s), os)
    ensures forall o :: multiset(WithStatus(os, s))[o] == if o.status == s then multiset(os)[o] else 0
    decreases |os|
  {
    if os != [] {
      WithStatusExact(os[1..], s);
      var rest := WithStatus(os[1..], s);
      assert os == [os[0]] + os[1..];
      if os[0].status != s {
        SubsequenceOfCons(rest, os[0], os[1..]);
      }
    }
  }

  /** `rows.reduce((sum, o) => sum + o.total, 0)`. */
  function SumTotals(os: seq<AdminOrder>): int {
    if os == [] then 0 else os[0].total + SumTotals(os[1..])
  }

  /** The `{status, count, total}` row of one status. */
  function Bucket(os: seq<AdminOrder>, s: string): ChartRow {
    var rows := WithStatus(os, s);
    ChartRow(s, |rows|, SumTotals(rows))
  }

  function RowStatuses(rows: seq<ChartRow>): (r: seq<string>)
    ensures |r| == |rows| && forall i :: 0 <= i < |rows| ==> r[i] == rows[i].status
  {
    if rows == [] then [] else [rows[0].status] + RowStatuses(rows[1..])
  }

  /** One bucket per status of `ss`, in the order of `ss`, keeping only the
      buckets with a positive count. */
  function Chart(os: seq<AdminOrder>, ss: seq<string>): (r: seq<ChartRow>)
    ensures forall i :: 0 <= i < |r| ==>
              r[i].status in ss && r[i].count > 0 && r[i] == Bucket(os, r[i].status)
    ensures SubsequenceOf(RowStatuses(r), ss)
    ensures forall s :: s in ss ==> (s in RowStatuses(r) <==> |WithStatus(os, s)| > 0)
  {
    if ss == [] then []
    else
      var row := Bucket(os, ss[0]);
      var rest := Chart(os, ss[1..]);
      assert ss == [ss[0]] + ss[1..];
      InTail(ss);
      if row.count > 0 then
        RowStatusesCons(row, rest);
        [row] + rest
      else
        SubsequenceOfCons(RowStatuses(rest), ss[0], ss[1..]);
        rest
  }

  lemma RowStatusesCons(row: ChartRow, rest: seq<ChartRow>)
    ensures RowStatuses([row] + rest) == [row.status] + RowStatuses(rest)
  {
    assert ([row] + rest)[1..] == rest;
  }

  lemma InTail<T>(s: seq<T>)
    requires s != []
    ensures forall x :: x in s <==> x == s[0] || x in s[1..]
  {
    assert s == [s[0]] + s[1..];
  }

  /** `statusChartData`: buckets in the fixed order pending, paid, shipped,
      completed, cancelled; a bucket is present exactly when its count is
      positive, and carries the number and the summed totals of the
      filtered orders with its status. */
  function StatusChartData(filtered: seq<AdminOrder>): (r: seq<ChartRow>)
    ensures forall i :: 0 <= i < |r| ==>
              r[i].status in Statuses && r[i].count > 0 &&
              r[i].count == |WithStatus(filtered, r[i].status)| &&
              r[i].total == SumTotals(WithStatus(filtered, r[i].status))
    ensures SubsequenceOf(RowStatuses(r), Statuses)
    ensures forall s :: s in Statuses ==> (s in RowStatuses(r) <==> |WithStatus(filtered, s)| > 0)
  {
    Chart(filtered, Statuses)
  }

  /** The orders whose status is one of `ss`. */
  function Listed(os: seq<AdminOrder>, ss: seq<string>): seq<AdminOrder> {
    if os == [] then []
    else if os[0].status in ss then [os[0]] + Listed(os[1..], ss)
    else Listed(os[1..], ss)
  }

  function SumCounts(rows: seq<ChartRow>): int {
    if rows == [] then 0 else rows[0].count + SumCounts(rows[1..])
  }

  function SumRowTotals(rows: seq<ChartRow>): int {
    if rows == [] then 0 else rows[0].total + SumRowTotals(rows[1..])
  }

  /** Splitting the listed orders by their first status, when that status
      does not occur again in `ss`. */
  lemma {:induction false} ListedSplit(os: seq<AdminOrder>, ss: seq<string>)
    requires ss != [] && ss[0] !in ss[1..]
    ensures |Listed(os, ss)| == |WithStatus(os, ss[0])| + |Listed(os, ss[1..])|
    ensures SumTotals(Listed(os, ss)) == SumTotals(WithStatus(os, ss[0])) + SumTotals(Listed(os, ss[1..]))
    decreases |os|
  {
    if os != [] {
      ListedSplit(os[1..], ss);
      var o := os[0];
      assert o.status in ss <==> o.status == ss[0] || o.status in ss[1..] by {
        assert ss == [ss[0]] + ss[1..];
      }
    }
  }

  /** Over a list of distinct statuses, the chart's counts add up to the
      number of orders whose status is listed, and its totals to their
      summed totals. */
  lemma {:induction false} ChartSums(os: seq<AdminOrder>, ss: seq<string>)
    requires forall i, j :: 0 <= i < j < |ss| ==> ss[i] != ss[j]
    ensures SumCounts(Chart(os, ss)) == |Listed(os, ss)|
    ensures SumRowTotals(Chart(os, ss)) == SumTotals(Listed(os, ss))
    decreases |ss|
  {
    if ss == [] {
      ListedNone(os);
    } else {
      ChartSums(os, ss[1..]);
      ListedSplit(os, ss);
      var row := Bucket(os, ss[0]);
      var rest := Chart(os, ss[1..]);
      if row.count > 0 {
        assert Chart(os, ss) == [row] + rest;
        assert ([row] + rest)[1..] == rest;
      } else {
        assert WithStatus(os, ss[0]) == [];
      }
    }
  }

  lemma {:induction false} ListedNone(os: seq<AdminOrder>)
    ensures Listed(os, []) == []
    decreases |os|
  {
    if os != [] {
      ListedNone(os[1..]);
    }
  }

  /** The bucket counts sum to the number of filtered orders whose status is
      one of the five, and the bucket totals to the sum of their totals;
      orders with any other status are in no bucket. */
  lemma StatusChartSums(filtered: seq<AdminOrder>)
    ensures SumCounts(StatusChartData(filtered)) == |Listed(filtered, Statuses)|
    ensures SumRowTotals(StatusChartData(filtered)) == SumTotals(Listed(filtered, Statuses))
  {
    OrderStatus.AllowedDistinct();
    ChartSums(filtered, Statuses);
  }
}
