/** `calculate_channel_performance`: one row per sales channel of the completed
    orders, largest revenue first, with each channel's share of the revenue. */
module Channel {
  import opened Aggregates
  import opened Ordering
  import opened SalesData

  datatype ChannelRow = ChannelRow(
    channel: string,
    revenue: real,
    profit: real,
    orders: nat,
    units: int,
    marketShare: Fraction)

  function ChannelRevenue(r: ChannelRow): real { r.revenue }
  function ChannelProfit(r: ChannelRow): real { r.profit }
  function ChannelUnitsReal(r: ChannelRow): real { r.units as real }
  function ChannelName(r: ChannelRow): string { r.channel }
  function MarketShare(r: ChannelRow): Fraction { r.marketShare }

  /** The share as the figures add it up: an undefined share counts 0. */
  function ShareOrZero(r: ChannelRow): real { ValueOrZero(r.marketShare) }

  function HasChannel(r: Row): bool { r.channel.Some? }

  /** The channel of a row that has one (the empty text stands in for none,
      and no row without a channel is ever grouped). */
  function ChannelOf(r: Row): string {
    if r.channel.Some? then r.channel.value else ""
  }

  /** `groupby('Channel')` leaves out the rows whose channel is missing. */
  function WithChannel(c: seq<Row>): (d: seq<Row>)
    ensures forall i :: 0 <= i < |d| ==> d[i].channel.Some? && d[i] in c
    ensures forall x :: x in c && x.channel.Some? ==> x in d
  {
    var d := Where(c, HasChannel, true);
    forall x | x in c && x.channel.Some? ensures x in d {
      var j :| 0 <= j < |c| && c[j] == x;
    }
    d
  }

  /** The rows without a channel are dropped; every other row is kept as
      often as it occurs. */
  lemma {:induction false} WithChannelMultiset(c: seq<Row>)
    ensures forall x :: multiset(WithChannel(c))[x] == if x.channel.Some? then multiset(c)[x] else 0
  {
    WhereMultiset(c, HasChannel, true);
  }

  /** The `agg` step for one channel, before the share column exists. */
  function Summary(g: Group<string, Row>): (r: ChannelRow)
    ensures r.channel == g.key
    ensures r.revenue == Sum(g.rows, Revenue) && r.profit == Sum(g.rows, Profit)
    ensures r.orders == NUnique(g.rows, OrderId) && r.units == SumInt(g.rows, Units)
  {
    ChannelRow(g.key, Sum(g.rows, Revenue), Sum(g.rows, Profit), NUnique(g.rows, OrderId),
               SumInt(g.rows, Units), Fraction(0.0, 0.0))
  }

  /** The `market_share` column: each revenue as a percentage of the column total. */
  function WithShares(t: seq<ChannelRow>): (u: seq<ChannelRow>)
    ensures |u| == |t|
    ensures forall i :: 0 <= i < |t| ==>
      u[i] == t[i].(marketShare := Percent(t[i].revenue, Sum(t, ChannelRevenue)))
  {
    var total := Sum(t, ChannelRevenue);
    seq(|t|, i requires 0 <= i < |t| => t[i].(marketShare := Percent(t[i].revenue, total)))
  }

  /** Each row's market share is its revenue as a percentage of the table's. */
  predicate ShareColumn(t: seq<ChannelRow>) {
    forall i :: 0 <= i < |t| ==> t[i].marketShare == Percent(t[i].revenue, Sum(t, ChannelRevenue))
  }

  /** The channel table built from the groups `gs`, largest revenue first. */
  function ChannelTable(gs: seq<Group<string, Row>>): (t: seq<ChannelRow>)
    ensures |t| == |gs|
    ensures Descending(t, ChannelRevenue) && ShareColumn(t)
    ensures multiset(t) == multiset(WithShares(Column(gs, Summary)))
  {
    var w := WithShares(Column(gs, Summary));
    var t := SortDesc(w, ChannelRevenue);
    SumPointwise(w, ChannelRevenue, Column(gs, Summary), ChannelRevenue);
    SharesSurviveSort(w, t, ChannelRevenue, MarketShare);
    t
  }

  /** The `calculate_channel_performance` table. */
  function ChannelPerformance(rows: seq<Row>): (t: seq<ChannelRow>)
    ensures |t| == NUnique(WithChannel(Completed(rows)), ChannelOf)
    ensures Descending(t, ChannelRevenue) && ShareColumn(t)
  {
    ChannelTable(GroupBy(WithChannel(Completed(rows)), ChannelOf))
  }

  /** The row `x` holds the sums and the distinct order count of exactly the
      rows of `c` in its channel, of which there is at least one. */
  predicate Summarizes(x: ChannelRow, c: seq<Row>) {
    var m := Where(c, ChannelOf, x.channel);
    && m != []
    && x.revenue == Sum(m, Revenue) && x.profit == Sum(m, Profit)
    && x.orders == NUnique(m, OrderId) && x.units == SumInt(m, Units)
  }

  /** Before sorting, each row summarises the group it was built from. */
  lemma {:induction false} SummariesOfGroups(c: seq<Row>, gs: seq<Group<string, Row>>)
    requires forall j :: 0 <= j < |gs| ==> gs[j].rows == Where(c, ChannelOf, gs[j].key) && gs[j].rows != []
    ensures var w := WithShares(Column(gs, Summary));
      forall j :: 0 <= j < |w| ==> Summarizes(w[j], c) && ChannelName(w[j]) == gs[j].key
  {
    var base := Column(gs, Summary);
    var w := WithShares(base);
    forall j | 0 <= j < |w| ensures Summarizes(w[j], c) && ChannelName(w[j]) == gs[j].key {
      assert base[j] == Summary(gs[j]);
    }
  }

  /** Built from the groups of `c`, the table has one row per group, each
      summarising its own channel, with no channel twice. */
  lemma {:induction false} TableSummarizes(c: seq<Row>, gs: seq<Group<string, Row>>)
    requires forall j :: 0 <= j < |gs| ==> gs[j].rows == Where(c, ChannelOf, gs[j].key) && gs[j].rows != []
    requires forall i, j :: 0 <= i < j < |gs| ==> gs[i].key != gs[j].key
    requires forall x :: x in c ==> exists j :: 0 <= j < |gs| && gs[j].key == ChannelOf(x)
    ensures var t := ChannelTable(gs);
      && (forall i :: 0 <= i < |t| ==> Summarizes(t[i], c))
      && (forall i, j :: 0 <= i < j < |t| ==> ChannelName(t[i]) != ChannelName(t[j]))
      && (forall x :: x in c ==> exists i :: 0 <= i < |t| && ChannelName(t[i]) == ChannelOf(x))
  {
    SummariesOfGroups(c, gs);
    SortedSummaries(c, ChannelOf, gs, WithShares(Column(gs, Summary)), ChannelTable(gs), ChannelName, x => Summarizes(x, c));
  }

  /** Every channel named on a completed order has exactly one row, which
      holds the revenue, profit, distinct orders and units of that channel's
      completed rows; completed rows without a channel are in no row. */
  lemma {:induction false} ChannelGroups(rows: seq<Row>)
    ensures var t := ChannelPerformance(rows);
      && (forall i :: 0 <= i < |t| ==> Summarizes(t[i], WithChannel(Completed(rows))))
      && (forall i, j :: 0 <= i < j < |t| ==> t[i].channel != t[j].channel)
      && (forall x :: x in Completed(rows) && x.channel.Some? ==>
            exists i :: 0 <= i < |t| && t[i].channel == x.channel.value)
  {
    var d := WithChannel(Completed(rows));
    GroupsCover(d, ChannelOf);
    TableSummarizes(d, GroupBy(d, ChannelOf));
  }

  /** The table's revenue, profit and units columns add up to the same
      columns of the grouped rows. */
  lemma {:induction false} TableTotals(gs: seq<Group<string, Row>>)
    ensures var t := ChannelTable(gs);
      && Sum(t, ChannelRevenue) == SumOverGroups(gs, Revenue)
      && Sum(t, ChannelProfit) == SumOverGroups(gs, Profit)
      && Sum(t, ChannelUnitsReal) == SumOverGroups(gs, UnitsReal)
  {
    var base := Column(gs, Summary);
    var w := WithShares(base);
    var t := ChannelTable(gs);
    forall j | 0 <= j < |w|
      ensures ChannelRevenue(w[j]) == Sum(gs[j].rows, Revenue)
      ensures ChannelProfit(w[j]) == Sum(gs[j].rows, Profit)
      ensures ChannelUnitsReal(w[j]) == Sum(gs[j].rows, UnitsReal)
    {
      assert base[j] == Summary(gs[j]);
      SumIntAsReal(gs[j].rows, Units, UnitsReal);
    }
    SumPerGroup(gs, Revenue, w, ChannelRevenue);
    SumPerGroup(gs, Profit, w, ChannelProfit);
    SumPerGroup(gs, UnitsReal, w, ChannelUnitsReal);
    SumPermutation(w, t, ChannelRevenue);
    SumPermutation(w, t, ChannelProfit);
    SumPermutation(w, t, ChannelUnitsReal);
  }

  /** Grouping by channel neither loses nor adds revenue, profit or units of
      the completed rows that name a channel. */
  lemma {:induction false} ChannelTotals(rows: seq<Row>)
    ensures var t := ChannelPerformance(rows);
      && Sum(t, ChannelRevenue) == Sum(WithChannel(Completed(rows)), Revenue)
      && Sum(t, ChannelProfit) == Sum(WithChannel(Completed(rows)), Profit)
      && Sum(t, ChannelUnitsReal) == Sum(WithChannel(Completed(rows)), UnitsReal)
  {
    var d := WithChannel(Completed(rows));
    TableTotals(GroupBy(d, ChannelOf));
    GroupByPreservesSum(d, ChannelOf, Revenue);
    GroupByPreservesSum(d, ChannelOf, Profit);
    GroupByPreservesSum(d, ChannelOf, UnitsReal);
  }

  /** The market shares add up to 100 whenever the channels' revenue is not
      zero. */
  lemma {:induction false} ChannelSharesSumTo100(rows: seq<Row>)
    requires Sum(WithChannel(Completed(rows)), Revenue) != 0.0
    ensures Sum(ChannelPerformance(rows), ShareOrZero) == 100.0
  {
    var t := ChannelPerformance(rows);
    ChannelTotals(rows);
    SharesSumTo100(t, ChannelRevenue, ShareOrZero);
  }

  /** The table depends on the completed orders only. */
  lemma {:induction false} ChannelIgnoresOtherStatuses(a: seq<Row>, r: Row, b: seq<Row>)
    requires r.status != COMPLETED
    ensures ChannelPerformance(a + [r] + b) == ChannelPerformance(a + b)
  {
    OtherStatusIgnored(a, r, b);
  }
}
