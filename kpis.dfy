/** `calculate_kpis`: headline figures over the completed orders. */
module Kpis {
  import opened Aggregates
  import opened SalesData

  datatype Kpis = Kpis(
    totalRevenue: real,
    totalProfit: real,
    totalOrders: nat,
    totalUnitsSold: int,
    avgOrderValue: Fraction,
    profitMargin: Fraction,
    uniqueCustomers: nat,
    primeMemberPct: Fraction,
    lateDeliveryPct: Fraction,
    uniqueProducts: nat,
    uniqueCountries: nat,
    avgDiscountRate: Fraction)

  function CalculateKpis(rows: seq<Row>): (k: Kpis)
    ensures k.totalRevenue == Sum(Completed(rows), Revenue)
    ensures k.totalProfit == Sum(Completed(rows), Profit)
    ensures k.totalUnitsSold == SumInt(Completed(rows), Units)
    ensures k.totalOrders == NUnique(Completed(rows), OrderId)
    ensures k.uniqueCustomers == NUnique(Completed(rows), Customer)
    ensures k.uniqueProducts == NUnique(Completed(rows), ProductName)
    ensures k.uniqueCountries == NUnique(Completed(rows), Country)
    ensures k.totalOrders == 0 <==> Completed(rows) == []
    ensures k.totalOrders <= |Completed(rows)| && k.uniqueCustomers <= |Completed(rows)|
    ensures k.uniqueProducts <= |Completed(rows)| && k.uniqueCountries <= |Completed(rows)|
    ensures k.avgOrderValue == Fraction(k.totalRevenue, |Completed(rows)| as real)
    ensures k.profitMargin == Percent(k.totalProfit, k.totalRevenue)
    ensures k.primeMemberPct == Percent(Count(Completed(rows), IsPrime) as real, |Completed(rows)| as real)
    ensures k.lateDeliveryPct == Percent(Count(Completed(rows), IsLate) as real, |Completed(rows)| as real)
    ensures k.avgDiscountRate == Percent(Sum(Completed(rows), DiscountRate), |Completed(rows)| as real)
  {
    var c := Completed(rows);
    var revenue := Sum(c, Revenue);
    var profit := Sum(c, Profit);
    Kpis(
      totalRevenue := revenue,
      totalProfit := profit,
      totalOrders := NUnique(c, OrderId),
      totalUnitsSold := SumInt(c, Units),
      avgOrderValue := Mean(c, Revenue),
      profitMargin := Percent(profit, revenue),
      uniqueCustomers := NUnique(c, Customer),
      primeMemberPct := PercentTrue(c, IsPrime),
      lateDeliveryPct := PercentTrue(c, IsLate),
      uniqueProducts := NUnique(c, ProductName),
      uniqueCountries := NUnique(c, Country),
      avgDiscountRate := Percent(Sum(c, DiscountRate), |c| as real))
  }

  /** `q` is defined and counts `count` flagged rows per hundred of `n`. */
  predicate PerHundred(q: Fraction, count: nat, n: nat) {
    Defined(q) && Value(q).value * n as real == count as real * 100.0
  }

  /** `q` is defined and `n` times it gives back `total`. */
  predicate AverageOver(q: Fraction, total: real, n: nat) {
    Defined(q) && Value(q).value * n as real == total
  }

  /** With `n >= 1` completed rows, of which `primes` are Prime orders and
      `lates` were late, the two percentages are defined, lie in [0, 100]
      and count flagged rows per hundred rows, and the average order value
      times `n` gives back the revenue. */
  lemma {:induction false} KpiRates(k: Kpis, n: nat, primes: nat, lates: nat)
    requires 1 <= n && primes <= n && lates <= n
    requires k.primeMemberPct == Percent(primes as real, n as real)
    requires k.lateDeliveryPct == Percent(lates as real, n as real)
    requires k.avgOrderValue == Fraction(k.totalRevenue, n as real)
    ensures PerHundred(k.primeMemberPct, primes, n) && PerHundred(k.lateDeliveryPct, lates, n)
    ensures AverageOver(k.avgOrderValue, k.totalRevenue, n)
    ensures 0.0 <= Value(k.primeMemberPct).value <= 100.0
    ensures 0.0 <= Value(k.lateDeliveryPct).value <= 100.0
  {
    RateOfCount(k.primeMemberPct, primes, n);
    RateOfCount(k.lateDeliveryPct, lates, n);
    RatioOfCount(k.avgOrderValue, k.totalRevenue, n);
  }

  /** Once an order is completed, the Prime and late-delivery percentages of
      the KPIs are defined and lie in [0, 100], each is its flagged count per
      hundred completed rows, and the average order value times the number of
      completed rows is the total revenue. */
  lemma {:induction false} KpiRatesOfReport(rows: seq<Row>)
    requires Completed(rows) != []
    ensures var k := CalculateKpis(rows);
      var c := Completed(rows);
      && PerHundred(k.primeMemberPct, Count(c, IsPrime), |c|)
      && PerHundred(k.lateDeliveryPct, Count(c, IsLate), |c|)
      && AverageOver(k.avgOrderValue, k.totalRevenue, |c|)
      && 0.0 <= Value(k.primeMemberPct).value <= 100.0
      && 0.0 <= Value(k.lateDeliveryPct).value <= 100.0
  {
    var c := Completed(rows);
    KpiRates(CalculateKpis(rows), |c|, Count(c, IsPrime), Count(c, IsLate));
  }

  /** The figures depend on the completed orders only: an order in any other
      status can be added anywhere without changing one of them. */
  lemma {:induction false} KpisIgnoreOtherStatuses(a: seq<Row>, r: Row, b: seq<Row>)
    requires r.status != COMPLETED
    ensures CalculateKpis(a + [r] + b) == CalculateKpis(a + b)
  {
    OtherStatusIgnored(a, r, b);
  }
}
