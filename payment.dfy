/** `calculate_payment_analysis`: one row per payment method of the completed
    orders, largest revenue first, with the mean order revenue, the fees and
    each method's share of the revenue. */
module Payment {
  import opened Aggregates
  import opened Ordering
  import opened SalesData

  datatype PaymentRow = PaymentRow(
    paymentMethod: string,
    revenue: real,
    avgOrderValue: Fraction,
    orders: nat,
    fees: real,
    share: Fraction)

  function PaymentRevenue(r: PaymentRow): real { r.revenue }
  function PaymentFeesTotal(r: PaymentRow): real { r.fees }
  function MethodName(r: PaymentRow): string { r.paymentMethod }
  function Share(r: PaymentRow): Fraction { r.share }

  /** The share as the figures add it up: an undefined share counts 0. */
  function ShareOrZero(r: PaymentRow): real { ValueOrZero(r.share) }

  /** The `agg` step for one method, before the share column exists: the
      mean is over the method's rows, not over its distinct orders. */
  function Summary(g: Group<string, Row>): (r: PaymentRow)
    ensures r.paymentMethod == g.key
    ensures r.revenue == Sum(g.rows, Revenue) && r.fees == Sum(g.rows, PaymentFees)
    ensures r.orders == NUnique(g.rows, OrderId)
    ensures r.avgOrderValue == Fraction(r.revenue, |g.rows| as real)
  {
    PaymentRow(g.key, Sum(g.rows, Revenue), Mean(g.rows, Revenue), NUnique(g.rows, OrderId),
               Sum(g.rows, PaymentFees), Fraction(0.0, 0.0))
  }

  /** The `share` column: each revenue as a percentage of the column total. */
  function WithShares(t: seq<PaymentRow>): (u: seq<PaymentRow>)
    ensures |u| == |t|
    ensures forall i :: 0 <= i < |t| ==>
      u[i] == t[i].(share := Percent(t[i].revenue, Sum(t, PaymentRevenue)))
  {
    var total := Sum(t, PaymentRevenue);
    seq(|t|, i requires 0 <= i < |t| => t[i].(share := Percent(t[i].revenue, total)))
  }

  /** Each row's share is its revenue as a percentage of the table's. */
  predicate ShareColumn(t: seq<PaymentRow>) {
    forall i :: 0 <= i < |t| ==> t[i].share == Percent(t[i].revenue, Sum(t, PaymentRevenue))
  }

  /** The payment table built from the groups `gs`, largest revenue first. */
  function PaymentTable(gs: seq<Group<string, Row>>): (t: seq<PaymentRow>)
    ensures |t| == |gs|
    ensures Descending(t, PaymentRevenue) && ShareColumn(t)
    ensures multiset(t) == multiset(WithShares(Column(gs, Summary)))
  {
    var w := WithShares(Column(gs, Summary));
    var t := SortDesc(w, PaymentRevenue);
    SumPointwise(w, PaymentRevenue, Column(gs, Summary), PaymentRevenue);
    SharesSurviveSort(w, t, PaymentRevenue, Share);
    t
  }

  /** The `calculate_payment_analysis` table. */
  function PaymentAnalysis(rows: seq<Row>): (t: seq<PaymentRow>)
    ensures |t| == NUnique(Completed(rows), PaymentMethod)
    ensures Descending(t, PaymentRevenue) && ShareColumn(t)
  {
    PaymentTable(GroupBy(Completed(rows), PaymentMethod))
  }

  /** The row `x` holds the revenue, the mean revenue per row, the distinct
      order count and the fees of exactly the rows of `c` paid with its
      method, of which there is at least one. */
  predicate Summarizes(x: PaymentRow, c: seq<Row>) {
    var m := Where(c, PaymentMethod, x.paymentMethod);
    && m != []
    && x.revenue == Sum(m, Revenue) && x.fees == Sum(m, PaymentFees)
    && x.avgOrderValue == Fraction(x.revenue, |m| as real)
    && x.orders == NUnique(m, OrderId)
  }

  /** Before sorting, each row summarises the group it was built from. */
  lemma {:induction false} SummariesOfGroups(c: seq<Row>, gs: seq<Group<string, Row>>)
    requires forall j :: 0 <= j < |gs| ==> gs[j].rows == Where(c, PaymentMethod, gs[j].key) && gs[j].rows != []
    ensures var w := WithShares(Column(gs, Summary));
      forall j :: 0 <= j < |w| ==> Summarizes(w[j], c) && MethodName(w[j]) == gs[j].key
  {
    var base := Column(gs, Summary);
    var w := WithShares(base);
    forall j | 0 <= j < |w| ensures Summarizes(w[j], c) && MethodName(w[j]) == gs[j].key {
      assert base[j] == Summary(gs[j]);
    }
  }

  /** Built from the groups of `c`, the table has one row per group, each
      summarising its own method, with no method twice. */
  lemma {:induction false} TableSummarizes(c: seq<Row>, gs: seq<Group<string, Row>>)
    requires forall j :: 0 <= j < |gs| ==> gs[j].rows == Where(c, PaymentMethod, gs[j].key) && gs[j].rows != []
    requires forall i, j :: 0 <= i < j < |gs| ==> gs[i].key != gs[j].key
    requires forall x :: x in c ==> exists j :: 0 <= j < |gs| && gs[j].key == PaymentMethod(x)
    ensures var t := PaymentTable(gs);
      && (forall i :: 0 <= i < |t| ==> Summarizes(t[i], c))
      && (forall i, j :: 0 <= i < j < |t| ==> MethodName(t[i]) != MethodName(t[j]))
      && (forall x :: x in c ==> exists i :: 0 <= i < |t| && MethodName(t[i]) == PaymentMethod(x))
  {
    SummariesOfGroups(c, gs);
    SortedSummaries(c, PaymentMethod, gs, WithShares(Column(gs, Summary)), PaymentTable(gs), MethodName, x => Summarizes(x, c));
  }

  /** Every payment method of a completed order has exactly one row, which
      holds the revenue, mean revenue, distinct orders and fees of that
      method's completed rows. */
  lemma {:induction false} PaymentGroups(rows: seq<Row>)
    ensures var t := PaymentAnalysis(rows);
      && (forall i :: 0 <= i < |t| ==> Summarizes(t[i], Completed(rows)))
      && (forall i, j :: 0 <= i < j < |t| ==> t[i].paymentMethod != t[j].paymentMethod)
      && (forall x :: x in Completed(rows) ==> exists i :: 0 <= i < |t| && t[i].paymentMethod == x.paymentMethod)
  {
    var c := Completed(rows);
    GroupsCover(c, PaymentMethod);
    TableSummarizes(c, GroupBy(c, PaymentMethod));
  }

  /** The mean order value of a row is always defined, since no group is
      empty, and times the number of the method's rows it gives back the
      revenue. */
  lemma {:induction false} MeanOrderValue(x: PaymentRow, c: seq<Row>)
    requires Summarizes(x, c)
    ensures Defined(x.avgOrderValue)
    ensures Value(x.avgOrderValue).value * x.avgOrderValue.denominator == x.revenue
    ensures x.avgOrderValue.denominator == |Where(c, PaymentMethod, x.paymentMethod)| as real
  {
    ValueTimesDenominator(x.avgOrderValue);
  }

  /** The table's revenue and fee columns add up to the same columns of the
      grouped rows. */
  lemma {:induction false} TableTotals(gs: seq<Group<string, Row>>)
    ensures var t := PaymentTable(gs);
      && Sum(t, PaymentRevenue) == SumOverGroups(gs, Revenue)
      && Sum(t, PaymentFeesTotal) == SumOverGroups(gs, PaymentFees)
  {
    var base := Column(gs, Summary);
    var w := WithShares(base);
    var t := PaymentTable(gs);
    forall j | 0 <= j < |w|
      ensures PaymentRevenue(w[j]) == Sum(gs[j].rows, Revenue)
      ensures PaymentFeesTotal(w[j]) == Sum(gs[j].rows, PaymentFees)
    {
      assert base[j] == Summary(gs[j]);
    }
    SumPerGroup(gs, Revenue, w, PaymentRevenue);
    SumPerGroup(gs, PaymentFees, w, PaymentFeesTotal);
    SumPermutation(w, t, PaymentRevenue);
    SumPermutation(w, t, PaymentFeesTotal);
  }

  /** Grouping by payment method neither loses nor adds revenue or fees. */
  lemma {:induction false} PaymentTotals(rows: seq<Row>)
    ensures var t := PaymentAnalysis(rows);
      && Sum(t, PaymentRevenue) == Sum(Completed(rows), Revenue)
      && Sum(t, PaymentFeesTotal) == Sum(Completed(rows), PaymentFees)
  {
    var c := Completed(rows);
    TableTotals(GroupBy(c, PaymentMethod));
    GroupByPreservesSum(c, PaymentMethod, Revenue);
    GroupByPreservesSum(c, PaymentMethod, PaymentFees);
  }

  /** The shares add up to 100 whenever the completed revenue is not zero. */
  lemma {:induction false} PaymentSharesSumTo100(rows: seq<Row>)
    requires Sum(Completed(rows), Revenue) != 0.0
    ensures Sum(PaymentAnalysis(rows), ShareOrZero) == 100.0
  {
    var t := PaymentAnalysis(rows);
    PaymentTotals(rows);
    SharesSumTo100(t, PaymentRevenue, ShareOrZero);
  }

  /** The table depends on the completed orders only. */
  lemma {:induction false} PaymentIgnoresOtherStatuses(a: seq<Row>, r: Row, b: seq<Row>)
    requires r.status != COMPLETED
    ensures PaymentAnalysis(a + [r] + b) == PaymentAnalysis(a + b)
  {
    OtherStatusIgnored(a, r, b);
  }
}
