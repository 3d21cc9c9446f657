/** `calculate_monthly_trends`: one row per `YearMonth` of the completed
    orders, oldest month first, with the month-over-month revenue growth and
    the trailing three-month mean of revenue. */
module Trends {
  import opened Aggregates
  import opened Ordering
  import opened Windows
  import opened SalesData

  datatype MonthRow = MonthRow(
    month: YearMonth,
    revenue: real,
    profit: real,
    orders: nat,
    units: int,
    revenueGrowth: Fraction,
    revenueMa3: real)

  function MonthRank(g: Group<YearMonth, Row>): int {
    MonthOrdinal(g.key)
  }

  function GroupRevenue<K>(g: Group<K, Row>): real {
    Sum(g.rows, Revenue)
  }

  /** The monthly groups of the completed rows, ordered by month. */
  function MonthGroups(rows: seq<Row>): (gs: seq<Group<YearMonth, Row>>)
    ensures multiset(gs) == multiset(GroupBy(Completed(rows), Month))
    ensures Ascending(gs, MonthRank)
  {
    SortAsc(GroupBy(Completed(rows), Month), MonthRank)
  }

  /** The `agg` step for one month, before the window columns exist. */
  function MonthSummary(g: Group<YearMonth, Row>): (m: MonthRow)
    ensures m.month == g.key
    ensures m.revenue == Sum(g.rows, Revenue) && m.profit == Sum(g.rows, Profit)
    ensures m.orders == NUnique(g.rows, OrderId) && m.units == SumInt(g.rows, Units)
  {
    var revenue := Sum(g.rows, Revenue);
    MonthRow(g.key, revenue, Sum(g.rows, Profit), NUnique(g.rows, OrderId), SumInt(g.rows, Units),
             NO_GROWTH, revenue)
  }

  function MonthRevenue(m: MonthRow): real { m.revenue }

  /** The `revenue_growth` and `revenue_ma3` columns over the rows `b`, which
      are already in month order; no other column changes. */
  function WithWindows(b: seq<MonthRow>): (t: seq<MonthRow>)
    ensures |t| == |b|
    ensures forall i {:trigger t[i]} :: 0 <= i < |t| ==>
      t[i] == b[i].(revenueGrowth := t[i].revenueGrowth, revenueMa3 := t[i].revenueMa3)
    ensures |t| > 0 ==> t[0].revenueGrowth == NO_GROWTH
    ensures forall i {:trigger t[i].revenueGrowth} :: 1 <= i < |t| ==>
      t[i].revenueGrowth == Growth(b[i - 1].revenue, b[i].revenue)
    ensures forall i {:trigger t[i].revenueMa3} :: 0 <= i < |t| ==>
      t[i].revenueMa3 == if i < 2 then b[i].revenue
                         else (b[i - 2].revenue + b[i - 1].revenue + b[i].revenue) / 3.0
  {
    var revenue := Column(b, MonthRevenue);
    assert forall i :: 0 <= i < |b| ==> revenue[i] == b[i].revenue;
    var growth := GrowthSeries(revenue);
    var ma3 := RollingMean3(revenue);
    seq(|b|, i requires 0 <= i < |b| => b[i].(revenueGrowth := growth[i], revenueMa3 := ma3[i]))
  }

  lemma {:induction false} MonthCount(rows: seq<Row>)
    ensures |MonthGroups(rows)| == NUnique(Completed(rows), Month)
  {
    PermutationMembers(GroupBy(Completed(rows), Month), MonthGroups(rows));
  }

  /** The growth column holds 0 for the first month and, for every later
      month, the growth of revenue from the month before; the moving average
      is the mean revenue of the month and the two before it, or the month's
      own revenue for the first two months. */
  predicate WindowColumns(t: seq<MonthRow>) {
    && (|t| > 0 ==> t[0].revenueGrowth == NO_GROWTH)
    && (forall i {:trigger t[i].revenueGrowth} :: 1 <= i < |t| ==> t[i].revenueGrowth == Growth(t[i - 1].revenue, t[i].revenue))
    && (forall i {:trigger t[i].revenueMa3} :: 0 <= i < |t| ==>
          t[i].revenueMa3 == if i < 2 then t[i].revenue
                             else (t[i - 2].revenue + t[i - 1].revenue + t[i].revenue) / 3.0)
  }

  /** One report row per group, with the window columns over the group
      revenues in the given order. */
  function MonthRows(gs: seq<Group<YearMonth, Row>>): (t: seq<MonthRow>)
    ensures |t| == |gs|
    ensures forall i {:trigger t[i]} :: 0 <= i < |t| ==>
      && t[i].month == gs[i].key
      && t[i].revenue == Sum(gs[i].rows, Revenue)
      && t[i].profit == Sum(gs[i].rows, Profit)
      && t[i].orders == NUnique(gs[i].rows, OrderId)
      && t[i].units == SumInt(gs[i].rows, Units)
    ensures WindowColumns(t)
  {
    var b := Column(gs, MonthSummary);
    var t := WithWindows(b);
    assert forall i {:trigger t[i]} :: 0 <= i < |t| ==> b[i] == MonthSummary(gs[i]) && t[i].month == b[i].month;
    t
  }

  /** The `calculate_monthly_trends` table. */
  function MonthlyTrends(rows: seq<Row>): (t: seq<MonthRow>)
    ensures |t| == NUnique(Completed(rows), Month)
    ensures WindowColumns(t)
  {
    MonthCount(rows);
    MonthRows(MonthGroups(rows))
  }

  /** Each row carries the sums and the distinct order count of exactly the
      completed rows of its month. */
  lemma {:induction false} MonthlyTrendsGroups(rows: seq<Row>)
    ensures var t := MonthlyTrends(rows);
      forall i :: 0 <= i < |t| ==>
        var m := Where(Completed(rows), Month, t[i].month);
        && m != []
        && t[i].revenue == Sum(m, Revenue)
        && t[i].profit == Sum(m, Profit)
        && t[i].orders == NUnique(m, OrderId)
        && t[i].units == SumInt(m, Units)
  {
    var gs := MonthGroups(rows);
    ReorderedGroups(Completed(rows), Month, gs);
    assert MonthlyTrends(rows) == MonthRows(gs);
  }

  /** The months come out strictly ascending. */
  lemma {:induction false} MonthsAscending(rows: seq<Row>)
    ensures var t := MonthlyTrends(rows);
      forall i, j :: 0 <= i < j < |t| ==> MonthOrdinal(t[i].month) < MonthOrdinal(t[j].month)
  {
    var gs := MonthGroups(rows);
    ReorderedGroups(Completed(rows), Month, gs);
    StrictlyAscending(gs);
    assert MonthlyTrends(rows) == MonthRows(gs);
  }

  /** Groups sorted by month with pairwise different months are in strictly
      ascending month order. */
  lemma {:induction false} StrictlyAscending(gs: seq<Group<YearMonth, Row>>)
    requires Ascending(gs, MonthRank)
    requires forall i, j :: 0 <= i < j < |gs| ==> gs[i].key != gs[j].key
    ensures forall i, j :: 0 <= i < j < |gs| ==> MonthOrdinal(gs[i].key) < MonthOrdinal(gs[j].key)
  {
    forall i, j | 0 <= i < j < |gs| ensures MonthOrdinal(gs[i].key) < MonthOrdinal(gs[j].key) {
      assert MonthRank(gs[i]) <= MonthRank(gs[j]);
      if MonthOrdinal(gs[i].key) == MonthOrdinal(gs[j].key) {
        MonthOrdinalInjective(gs[i].key, gs[j].key);
      }
    }
  }

  /** Every month in which an order was completed has its row. */
  lemma {:induction false} MonthsCovered(rows: seq<Row>)
    ensures var t := MonthlyTrends(rows);
      forall r :: r in Completed(rows) ==> exists i :: 0 <= i < |t| && t[i].month == r.yearMonth
  {
    var c := Completed(rows);
    var g := GroupBy(c, Month);
    var gs := MonthGroups(rows);
    var t := MonthRows(gs);
    assert MonthlyTrends(rows) == t;
    forall r | r in c ensures exists i :: 0 <= i < |t| && t[i].month == r.yearMonth {
      var j :| 0 <= j < |c| && c[j] == r;
      var k :| 0 <= k < |g| && g[k].key == Month(c[j]);
      assert g[k] in multiset(gs);
      var i :| 0 <= i < |gs| && gs[i] == g[k];
      assert t[i].month == r.yearMonth;
    }
  }

  function MonthProfit(m: MonthRow): real { m.profit }
  function MonthUnits(m: MonthRow): int { m.units }
  function MonthUnitsReal(m: MonthRow): real { m.units as real }

  /** The monthly revenue, profit and units add up to the totals over the
      completed rows. */
  lemma {:induction false} MonthlyTotals(rows: seq<Row>)
    ensures var t := MonthlyTrends(rows);
      && Sum(t, MonthRevenue) == Sum(Completed(rows), Revenue)
      && Sum(t, MonthProfit) == Sum(Completed(rows), Profit)
      && SumInt(t, MonthUnits) == SumInt(Completed(rows), Units)
  {
    var c := Completed(rows);
    var gs := MonthGroups(rows);
    var t := MonthlyTrends(rows);
    ReorderedGroups(c, Month, gs);
    assert t == MonthRows(gs);
    GroupedTotal(c, Month, gs, Revenue, t, MonthRevenue);
    GroupedTotal(c, Month, gs, Profit, t, MonthProfit);
    forall i | 0 <= i < |t| ensures MonthUnitsReal(t[i]) == Sum(gs[i].rows, UnitsReal) {
      SumIntAsReal(gs[i].rows, Units, UnitsReal);
    }
    GroupedTotal(c, Month, gs, UnitsReal, t, MonthUnitsReal);
    SumIntAsReal(t, MonthUnits, MonthUnitsReal);
    CompletedUnitsTotal(rows);
  }
}
