/** `calculate_order_status_distribution`: one row per order status over all
    rows, whatever their status, with each status's share of the orders. */
module OrderStatus {
  import opened Aggregates
  import opened Ordering
  import opened SalesData

  datatype StatusRow = StatusRow(
    status: string,
    orders: nat,
    revenue: real,
    refunds: real,
    orderShare: Fraction)

  function StatusName(r: StatusRow): string { r.status }
  function StatusOrders(r: StatusRow): real { r.orders as real }
  function StatusRevenue(r: StatusRow): real { r.revenue }
  function StatusRefunds(r: StatusRow): real { r.refunds }

  /** The share as the figures add it up: an undefined share counts 0. */
  function ShareOrZero(r: StatusRow): real { ValueOrZero(r.orderShare) }

  /** The `agg` step for one status, before the share column exists. */
  function Summary(g: Group<string, Row>): (r: StatusRow)
    ensures r.status == g.key
    ensures r.orders == NUnique(g.rows, OrderId)
    ensures r.revenue == Sum(g.rows, Revenue) && r.refunds == Sum(g.rows, Refund)
  {
    StatusRow(g.key, NUnique(g.rows, OrderId), Sum(g.rows, Revenue), Sum(g.rows, Refund), Fraction(0.0, 0.0))
  }

  /** The `order_share` column: each distinct order count as a percentage of
      the column total. */
  function WithShares(t: seq<StatusRow>): (u: seq<StatusRow>)
    ensures |u| == |t|
    ensures forall i :: 0 <= i < |t| ==>
      u[i] == t[i].(orderShare := Percent(t[i].orders as real, Sum(t, StatusOrders)))
  {
    var total := Sum(t, StatusOrders);
    seq(|t|, i requires 0 <= i < |t| => t[i].(orderShare := Percent(t[i].orders as real, total)))
  }

  /** Each row's share is its order count as a percentage of the table's. */
  predicate ShareColumn(t: seq<StatusRow>) {
    forall i :: 0 <= i < |t| ==> t[i].orderShare == Percent(t[i].orders as real, Sum(t, StatusOrders))
  }

  /** The status table built from the groups `gs`, in their order. */
  function StatusTable(gs: seq<Group<string, Row>>): (t: seq<StatusRow>)
    ensures |t| == |gs|
    ensures ShareColumn(t)
  {
    var base := Column(gs, Summary);
    var t := WithShares(base);
    SumPointwise(t, StatusOrders, base, StatusOrders);
    t
  }

  /** The `calculate_order_status_distribution` table: every status, not only
      the completed orders. */
  function StatusDistribution(rows: seq<Row>): (t: seq<StatusRow>)
    ensures |t| == NUnique(rows, Status)
    ensures rows != [] ==> t != []
    ensures ShareColumn(t)
  {
    StatusTable(GroupBy(rows, Status))
  }

  /** The row `x` holds the distinct order count, revenue and refunds of
      exactly the rows of `c` in its status, of which there is at least one. */
  predicate Summarizes(x: StatusRow, c: seq<Row>) {
    var m := Where(c, Status, x.status);
    && m != []
    && x.orders == NUnique(m, OrderId)
    && x.revenue == Sum(m, Revenue) && x.refunds == Sum(m, Refund)
  }

  lemma {:induction false} SummariesOfGroups(c: seq<Row>, gs: seq<Group<string, Row>>)
    requires forall j :: 0 <= j < |gs| ==> gs[j].rows == Where(c, Status, gs[j].key) && gs[j].rows != []
    ensures var t := StatusTable(gs);
      forall j :: 0 <= j < |t| ==> Summarizes(t[j], c) && StatusName(t[j]) == gs[j].key
  {
    var base := Column(gs, Summary);
    var t := StatusTable(gs);
    forall j | 0 <= j < |t| ensures Summarizes(t[j], c) && StatusName(t[j]) == gs[j].key {
      assert base[j] == Summary(gs[j]);
    }
  }

  /** Every status has exactly one row, which holds the distinct orders,
      revenue and refunds of that status's rows. */
  lemma {:induction false} StatusGroups(rows: seq<Row>)
    ensures var t := StatusDistribution(rows);
      && (forall i :: 0 <= i < |t| ==> Summarizes(t[i], rows))
      && (forall i, j :: 0 <= i < j < |t| ==> t[i].status != t[j].status)
      && (forall x :: x in rows ==> exists i :: 0 <= i < |t| && t[i].status == x.status)
  {
    var gs := GroupBy(rows, Status);
    var t := StatusTable(gs);
    GroupsCover(rows, Status);
    SummariesOfGroups(rows, gs);
    SortedSummaries(rows, Status, gs, t, t, StatusName, x => Summarizes(x, rows));
  }

  /** Grouping by status neither loses nor adds revenue or refunds. */
  lemma {:induction false} StatusTotals(rows: seq<Row>)
    ensures var t := StatusDistribution(rows);
      && Sum(t, StatusRevenue) == Sum(rows, Revenue)
      && Sum(t, StatusRefunds) == Sum(rows, Refund)
  {
    var gs := GroupBy(rows, Status);
    var base := Column(gs, Summary);
    var t := StatusTable(gs);
    forall j | 0 <= j < |t|
      ensures StatusRevenue(t[j]) == Sum(gs[j].rows, Revenue)
      ensures StatusRefunds(t[j]) == Sum(gs[j].rows, Refund)
    {
      assert base[j] == Summary(gs[j]);
    }
    SumPerGroup(gs, Revenue, t, StatusRevenue);
    SumPerGroup(gs, Refund, t, StatusRefunds);
    GroupByPreservesSum(rows, Status, Revenue);
    GroupByPreservesSum(rows, Status, Refund);
  }

  /** Every status row counts at least one order. */
  lemma {:induction false} StatusOrdersPositive(gs: seq<Group<string, Row>>)
    requires forall j :: 0 <= j < |gs| ==> gs[j].rows != []
    ensures var t := StatusTable(gs);
      forall i :: 0 <= i < |t| ==> t[i].orders >= 1
  {
    var base := Column(gs, Summary);
    var t := StatusTable(gs);
    forall i | 0 <= i < |t| ensures t[i].orders >= 1 {
      assert base[i] == Summary(gs[i]);
    }
  }

  /** The order shares add up to 100 as soon as there is a row: every status
      counts at least one order, so the total is never 0. */
  lemma {:induction false} OrderSharesSumTo100(rows: seq<Row>)
    requires rows != []
    ensures Sum(StatusDistribution(rows), ShareOrZero) == 100.0
  {
    var t := StatusDistribution(rows);
    StatusOrdersPositive(GroupBy(rows, Status));
    SumAtLeastCount(t, StatusOrders);
    SharesSumTo100(t, StatusOrders, ShareOrZero);
  }
}
