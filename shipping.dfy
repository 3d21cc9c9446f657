/** `calculate_shipping_performance`: one row per courier of the completed
    orders with its late and on-time rates, the ten couriers with the most
    shipments, most first. */
module Shipping {
  import opened Aggregates
  import opened Ordering
  import opened SalesData

  /** How many couriers the report keeps. */
  const TOP_COURIERS: nat := 10

  datatype CourierRow = CourierRow(
    courier: string,
    shipments: nat,
    lateCount: nat,
    lateRate: Fraction,
    avgCost: Fraction,
    avgDays: Fraction,
    onTimeRate: Fraction)

  function CourierName(r: CourierRow): string { r.courier }
  function Shipments(r: CourierRow): real { r.shipments as real }

  /** The `agg` step for one courier: the late rate is the mean of the late
      flags times 100, and the on-time rate is what is left of 100. */
  function Summary(g: Group<string, Row>): (r: CourierRow)
    ensures r.courier == g.key
    ensures r.shipments == NUnique(g.rows, OrderId) && r.lateCount == Count(g.rows, IsLate)
    ensures r.lateRate == PercentTrue(g.rows, IsLate) && r.onTimeRate == Complement(r.lateRate)
    ensures r.avgCost == Mean(g.rows, ShippingCost) && r.avgDays == Mean(g.rows, Days)
  {
    var lateRate := PercentTrue(g.rows, IsLate);
    CourierRow(g.key, NUnique(g.rows, OrderId), Count(g.rows, IsLate), lateRate,
               Mean(g.rows, ShippingCost), Mean(g.rows, Days), Complement(lateRate))
  }

  /** Every courier of the completed orders, before `head(10)`. */
  function Couriers(rows: seq<Row>): (all: seq<CourierRow>)
    ensures |all| == NUnique(Completed(rows), Courier)
  {
    Column(GroupBy(Completed(rows), Courier), Summary)
  }

  /** The `calculate_shipping_performance` table: at most ten couriers, the
      ones with the most shipments, most first, each one of the couriers. */
  function ShippingPerformance(rows: seq<Row>): (t: seq<CourierRow>)
    ensures |t| <= TOP_COURIERS
    ensures |t| == if |Couriers(rows)| < TOP_COURIERS then |Couriers(rows)| else TOP_COURIERS
    ensures Descending(t, Shipments)
    ensures multiset(t) <= multiset(Couriers(rows))
  {
    Largest(Couriers(rows), TOP_COURIERS, Shipments)
  }

  /** The row `x` holds the figures of exactly the rows of `c` carried by its
      courier, of which there is at least one. */
  predicate Summarizes(x: CourierRow, c: seq<Row>) {
    var m := Where(c, Courier, x.courier);
    && m != []
    && x.shipments == NUnique(m, OrderId) && x.lateCount == Count(m, IsLate)
    && x.lateRate == PercentTrue(m, IsLate) && x.onTimeRate == Complement(x.lateRate)
    && x.avgCost == Mean(m, ShippingCost) && x.avgDays == Mean(m, Days)
  }

  /** Each courier row summarises the completed rows of its courier, and no
      courier has two rows. */
  lemma {:induction false} CourierSummaries(c: seq<Row>, gs: seq<Group<string, Row>>)
    requires forall j :: 0 <= j < |gs| ==> gs[j].rows == Where(c, Courier, gs[j].key) && gs[j].rows != []
    ensures var w := Column(gs, Summary);
      forall j :: 0 <= j < |w| ==> Summarizes(w[j], c) && CourierName(w[j]) == gs[j].key
  {
    var w := Column(gs, Summary);
    forall j | 0 <= j < |w| ensures Summarizes(w[j], c) && CourierName(w[j]) == gs[j].key {
      assert w[j] == Summary(gs[j]);
    }
  }

  /** Every row of the report summarises the completed rows of its courier,
      and no courier appears twice. */
  lemma {:induction false} ShippingGroups(rows: seq<Row>)
    ensures var t := ShippingPerformance(rows);
      && (forall i :: 0 <= i < |t| ==> Summarizes(t[i], Completed(rows)))
      && (forall i, j :: 0 <= i < j < |t| ==> t[i].courier != t[j].courier)
  {
    var c := Completed(rows);
    SelectedCouriers(c, GroupBy(c, Courier), ShippingPerformance(rows));
  }

  /** Rows selected from the summaries of the groups of `c` each summarise
      their own courier, with no courier twice. */
  lemma {:induction false} SelectedCouriers(c: seq<Row>, gs: seq<Group<string, Row>>, t: seq<CourierRow>)
    requires forall j :: 0 <= j < |gs| ==> gs[j].rows == Where(c, Courier, gs[j].key) && gs[j].rows != []
    requires forall i, j :: 0 <= i < j < |gs| ==> gs[i].key != gs[j].key
    requires multiset(t) <= multiset(Column(gs, Summary))
    ensures forall i :: 0 <= i < |t| ==> Summarizes(t[i], c)
    ensures forall i, j :: 0 <= i < j < |t| ==> t[i].courier != t[j].courier
  {
    CourierSummaries(c, gs);
    SelectedSummaries(gs, Column(gs, Summary), t, CourierName, x => Summarizes(x, c));
  }

  /** A courier left out of the report has no more shipments than any
      courier kept. */
  lemma {:induction false} ShippingDominates(rows: seq<Row>, x: CourierRow, y: CourierRow)
    requires x in Couriers(rows) && x !in ShippingPerformance(rows)
    requires y in ShippingPerformance(rows)
    ensures x.shipments <= y.shipments
  {
    LargestDominates(Couriers(rows), TOP_COURIERS, Shipments, x, y);
  }

  /** A courier's late rate is its late count as a percentage of its rows,
      of which it has at least one. */
  lemma {:induction false} CourierCounts(x: CourierRow, c: seq<Row>)
    requires Summarizes(x, c)
    ensures var n := |Where(c, Courier, x.courier)|;
      && 1 <= n && x.lateCount <= n
      && x.lateRate == Percent(x.lateCount as real, n as real)
  {
  }

  /** Both rates of a courier with `n >= 1` rows are defined and lie between
      0 and 100, the on-time rate is 100 minus the late rate, and the late
      rate is the late count per hundred rows. */
  lemma {:induction false} CourierRates(x: CourierRow, n: nat)
    requires 1 <= n && x.lateCount <= n
    requires x.lateRate == Percent(x.lateCount as real, n as real)
    requires x.onTimeRate == Complement(x.lateRate)
    ensures Defined(x.lateRate) && Defined(x.onTimeRate)
    ensures Value(x.lateRate).value * n as real == x.lateCount as real * 100.0
    ensures 0.0 <= Value(x.lateRate).value <= 100.0
    ensures Value(x.onTimeRate).value == 100.0 - Value(x.lateRate).value
    ensures 0.0 <= Value(x.onTimeRate).value <= 100.0
  {
    RateOfCount(x.lateRate, x.lateCount, n);
  }

  /** Every courier in the report has both rates defined and between 0 and
      100, and its on-time rate is 100 minus its late rate. */
  lemma {:induction false} ShippingRates(rows: seq<Row>)
    ensures var t := ShippingPerformance(rows);
      forall i :: 0 <= i < |t| ==>
        && Defined(t[i].lateRate) && Defined(t[i].onTimeRate)
        && 0.0 <= Value(t[i].lateRate).value <= 100.0
        && 0.0 <= Value(t[i].onTimeRate).value <= 100.0
        && Value(t[i].onTimeRate).value == 100.0 - Value(t[i].lateRate).value
  {
    var c := Completed(rows);
    var t := ShippingPerformance(rows);
    ShippingGroups(rows);
    forall i | 0 <= i < |t|
      ensures && Defined(t[i].lateRate) && Defined(t[i].onTimeRate)
              && 0.0 <= Value(t[i].lateRate).value <= 100.0
              && 0.0 <= Value(t[i].onTimeRate).value <= 100.0
              && Value(t[i].onTimeRate).value == 100.0 - Value(t[i].lateRate).value
    {
      CourierCounts(t[i], c);
      CourierRates(t[i], |Where(c, Courier, t[i].courier)|);
    }
  }

  /** The table depends on the completed orders only. */
  lemma {:induction false} ShippingIgnoresOtherStatuses(a: seq<Row>, r: Row, b: seq<Row>)
    requires r.status != COMPLETED
    ensures ShippingPerformance(a + [r] + b) == ShippingPerformance(a + b)
  {
    OtherStatusIgnored(a, r, b);
  }
}
