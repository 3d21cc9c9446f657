/** `calculate_regional_performance`: one row per (region, country) pair of the
    completed orders, with the revenue per order and per customer. */
module Regional {
  import opened Aggregates
  import opened Ordering
  import opened SalesData

  datatype RegionRow = RegionRow(
    region: string,
    country: string,
    revenue: real,
    profit: real,
    orders: nat,
    customers: nat,
    avgOrderValue: Fraction,
    revenuePerCustomer: Fraction)

  function RegionRevenue(r: RegionRow): real { r.revenue }
  function RegionProfit(r: RegionRow): real { r.profit }
  function Place(r: RegionRow): (string, string) { (r.region, r.country) }

  /** The `agg` step for one (region, country) group, with its two ratios. */
  function Summary(g: Group<(string, string), Row>): (r: RegionRow)
    ensures Place(r) == g.key
    ensures r.revenue == Sum(g.rows, Revenue) && r.profit == Sum(g.rows, Profit)
    ensures r.orders == NUnique(g.rows, OrderId) && r.customers == NUnique(g.rows, Customer)
    ensures r.avgOrderValue == Fraction(r.revenue, r.orders as real)
    ensures r.revenuePerCustomer == Fraction(r.revenue, r.customers as real)
  {
    var revenue := Sum(g.rows, Revenue);
    var orders := NUnique(g.rows, OrderId);
    var customers := NUnique(g.rows, Customer);
    RegionRow(g.key.0, g.key.1, revenue, Sum(g.rows, Profit), orders, customers,
              Fraction(revenue, orders as real), Fraction(revenue, customers as real))
  }

  /** The regional table built from the groups `gs`, in their order. */
  function RegionalTable(gs: seq<Group<(string, string), Row>>): (t: seq<RegionRow>)
    ensures |t| == |gs|
    ensures forall i :: 0 <= i < |t| ==> t[i] == Summary(gs[i])
  {
    Column(gs, Summary)
  }

  /** The `calculate_regional_performance` table. */
  function RegionalPerformance(rows: seq<Row>): (t: seq<RegionRow>)
    ensures |t| == NUnique(Completed(rows), RegionCountry)
  {
    RegionalTable(GroupBy(Completed(rows), RegionCountry))
  }

  /** The row `x` holds the sums and the distinct order and customer counts
      of exactly the rows of `c` in its region and country, of which there
      is at least one, and its ratios divide its revenue by those counts. */
  predicate Summarizes(x: RegionRow, c: seq<Row>) {
    var m := Where(c, RegionCountry, Place(x));
    && m != []
    && x.revenue == Sum(m, Revenue) && x.profit == Sum(m, Profit)
    && x.orders == NUnique(m, OrderId) && x.customers == NUnique(m, Customer)
    && x.avgOrderValue == Fraction(x.revenue, x.orders as real)
    && x.revenuePerCustomer == Fraction(x.revenue, x.customers as real)
  }

  lemma {:induction false} TableSummarizes(c: seq<Row>, gs: seq<Group<(string, string), Row>>)
    requires forall j :: 0 <= j < |gs| ==> gs[j].rows == Where(c, RegionCountry, gs[j].key) && gs[j].rows != []
    requires forall i, j :: 0 <= i < j < |gs| ==> gs[i].key != gs[j].key
    requires forall x :: x in c ==> exists j :: 0 <= j < |gs| && gs[j].key == RegionCountry(x)
    ensures var t := RegionalTable(gs);
      && (forall i :: 0 <= i < |t| ==> Summarizes(t[i], c))
      && (forall i, j :: 0 <= i < j < |t| ==> Place(t[i]) != Place(t[j]))
      && (forall x :: x in c ==> exists i :: 0 <= i < |t| && Place(t[i]) == RegionCountry(x))
  {
    var t := RegionalTable(gs);
    forall j | 0 <= j < |t| ensures Summarizes(t[j], c) && Place(t[j]) == gs[j].key {
    }
    SortedSummaries(c, RegionCountry, gs, t, t, Place, x => Summarizes(x, c));
  }

  /** Every (region, country) pair of a completed order has exactly one row,
      which holds the figures of that pair's completed rows. */
  lemma {:induction false} RegionalGroups(rows: seq<Row>)
    ensures var t := RegionalPerformance(rows);
      && (forall i :: 0 <= i < |t| ==> Summarizes(t[i], Completed(rows)))
      && (forall i, j :: 0 <= i < j < |t| ==> Place(t[i]) != Place(t[j]))
      && (forall x :: x in Completed(rows) ==> exists i :: 0 <= i < |t| && Place(t[i]) == RegionCountry(x))
  {
    var c := Completed(rows);
    GroupsCover(c, RegionCountry);
    TableSummarizes(c, GroupBy(c, RegionCountry));
  }

  /** Every row counts at least one order and one customer. */
  lemma {:induction false} RegionalCounts(x: RegionRow, c: seq<Row>)
    requires Summarizes(x, c)
    ensures x.orders >= 1 && x.customers >= 1
  {
  }

  /** Both ratios of a row with an order and a customer are defined, and
      each multiplied back by its count gives the revenue. */
  lemma {:induction false} RegionalRatios(x: RegionRow)
    requires x.orders >= 1 && x.customers >= 1
    requires x.avgOrderValue == Fraction(x.revenue, x.orders as real)
    requires x.revenuePerCustomer == Fraction(x.revenue, x.customers as real)
    ensures Defined(x.avgOrderValue) && Defined(x.revenuePerCustomer)
    ensures Value(x.avgOrderValue).value * x.orders as real == x.revenue
    ensures Value(x.revenuePerCustomer).value * x.customers as real == x.revenue
  {
    RatioOfCount(x.avgOrderValue, x.revenue, x.orders);
    RatioOfCount(x.revenuePerCustomer, x.revenue, x.customers);
  }

  /** Grouping by region and country neither loses nor adds revenue or profit. */
  lemma {:induction false} RegionalTotals(rows: seq<Row>)
    ensures var t := RegionalPerformance(rows);
      && Sum(t, RegionRevenue) == Sum(Completed(rows), Revenue)
      && Sum(t, RegionProfit) == Sum(Completed(rows), Profit)
  {
    var c := Completed(rows);
    var gs := GroupBy(c, RegionCountry);
    var t := RegionalTable(gs);
    SumPerGroup(gs, Revenue, t, RegionRevenue);
    SumPerGroup(gs, Profit, t, RegionProfit);
    GroupByPreservesSum(c, RegionCountry, Revenue);
    GroupByPreservesSum(c, RegionCountry, Profit);
  }

  /** The table depends on the completed orders only. */
  lemma {:induction false} RegionalIgnoresOtherStatuses(a: seq<Row>, r: Row, b: seq<Row>)
    requires r.status != COMPLETED
    ensures RegionalPerformance(a + [r] + b) == RegionalPerformance(a + b)
  {
    OtherStatusIgnored(a, r, b);
  }
}
