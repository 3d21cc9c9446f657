/** `calculate_day_of_week_analysis`: one row per weekday of the completed
    orders, Monday first, with the revenue per order and an index of the
    day's revenue against the mean day. */
module DayOfWeek {
  import opened Aggregates
  import opened Ordering
  import opened SalesData

  datatype DayRow = DayRow(
    dayNum: DayNum,
    dayName: string,
    revenue: real,
    orders: nat,
    avgRevenue: Fraction,
    index: Fraction)

  function DayRevenue(r: DayRow): real { r.revenue }
  function DayRank(r: DayRow): int { r.dayNum }
  function DayKey(r: DayRow): (DayNum, string) { (r.dayNum, r.dayName) }

  /** The index as the figures add it up: an undefined index counts 0. */
  function IndexOrZero(r: DayRow): real { ValueOrZero(r.index) }

  /** The `agg` step for one weekday, with the revenue per order. */
  function Summary(g: Group<(DayNum, string), Row>): (r: DayRow)
    ensures DayKey(r) == g.key
    ensures r.revenue == Sum(g.rows, Revenue) && r.orders == NUnique(g.rows, OrderId)
    ensures r.avgRevenue == Fraction(r.revenue, r.orders as real)
  {
    var revenue := Sum(g.rows, Revenue);
    var orders := NUnique(g.rows, OrderId);
    DayRow(g.key.0, g.key.1, revenue, orders, Fraction(revenue, orders as real), Fraction(0.0, 0.0))
  }

  /** The `index` column: revenue over the mean revenue of the table's rows,
      times 100. Dividing by `total / n` is multiplying by `n / total`, so the
      index is `revenue * n` as a percentage of `total`; it is undefined when
      the total is 0, where the mean is 0. */
  function IndexOf(revenue: real, n: nat, total: real): (x: Fraction)
    ensures Defined(x) <==> total != 0.0
  {
    Percent(revenue * n as real, total)
  }

  /** On a table of `n` rows with a non-zero revenue `total`, the index is
      the revenue over the mean `total / n`, times 100. */
  lemma IndexOfMean(revenue: real, n: nat, total: real)
    requires n > 0 && total != 0.0
    ensures Value(IndexOf(revenue, n, total)).value == revenue / (total / n as real) * 100.0
  {
    var m := n as real;
    var q := total / m;
    var x := revenue * m / total;
    assert q * m == total && x * total == revenue * m;
    assert (x * q) * m == revenue * m;
    assert x * q == revenue;
    assert revenue / q == x;
    assert revenue * m * 100.0 / total == x * 100.0;
  }

  function WithIndex(t: seq<DayRow>): (u: seq<DayRow>)
    ensures |u| == |t|
    ensures forall i :: 0 <= i < |t| ==>
      u[i] == t[i].(index := IndexOf(t[i].revenue, |t|, Sum(t, DayRevenue)))
  {
    var total := Sum(t, DayRevenue);
    seq(|t|, i requires 0 <= i < |t| => t[i].(index := IndexOf(t[i].revenue, |t|, total)))
  }

  predicate IndexColumn(t: seq<DayRow>) {
    forall i :: 0 <= i < |t| ==> t[i].index == IndexOf(t[i].revenue, |t|, Sum(t, DayRevenue))
  }

  /** The weekday table built from the groups `gs`, ordered by day number. */
  function DayTable(gs: seq<Group<(DayNum, string), Row>>): (t: seq<DayRow>)
    ensures |t| == |gs|
    ensures Ascending(t, DayRank) && IndexColumn(t)
    ensures multiset(t) == multiset(WithIndex(Column(gs, Summary)))
  {
    var base := Column(gs, Summary);
    var w := WithIndex(base);
    var t := SortAsc(w, DayRank);
    IndexOfWithIndex(base);
    IndexSurvivesSort(w, t);
    t
  }

  lemma {:induction false} IndexOfWithIndex(base: seq<DayRow>)
    ensures IndexColumn(WithIndex(base))
  {
    var w := WithIndex(base);
    SumPointwise(w, DayRevenue, base, DayRevenue);
    forall i | 0 <= i < |w| ensures w[i].index == IndexOf(w[i].revenue, |w|, Sum(w, DayRevenue)) {
      assert w[i].revenue == base[i].revenue;
    }
  }

  lemma {:induction false} IndexSurvivesSort(w: seq<DayRow>, t: seq<DayRow>)
    requires multiset(w) == multiset(t) && IndexColumn(w)
    ensures IndexColumn(t)
  {
    SumPermutation(w, t, DayRevenue);
    PermutationMembers(w, t);
    SelectionKeeps(w, t, (x: DayRow) => x.index == IndexOf(x.revenue, |t|, Sum(t, DayRevenue)));
  }

  /** The `calculate_day_of_week_analysis` table. */
  function DayOfWeekAnalysis(rows: seq<Row>): (t: seq<DayRow>)
    ensures |t| == NUnique(Completed(rows), Day)
    ensures Ascending(t, DayRank) && IndexColumn(t)
  {
    DayTable(GroupBy(Completed(rows), Day))
  }

  /** The row `x` holds the revenue and the distinct order count of exactly
      the rows of `c` on its weekday, of which there is at least one, and
      its revenue per order. */
  predicate Summarizes(x: DayRow, c: seq<Row>) {
    var m := Where(c, Day, DayKey(x));
    && m != []
    && x.revenue == Sum(m, Revenue) && x.orders == NUnique(m, OrderId)
    && x.avgRevenue == Fraction(x.revenue, x.orders as real)
  }

  /** Before sorting, each row summarises the group it was built from. */
  lemma {:induction false} SummariesOfGroups(c: seq<Row>, gs: seq<Group<(DayNum, string), Row>>)
    requires forall j :: 0 <= j < |gs| ==> gs[j].rows == Where(c, Day, gs[j].key) && gs[j].rows != []
    ensures var w := WithIndex(Column(gs, Summary));
      forall j :: 0 <= j < |w| ==> Summarizes(w[j], c) && DayKey(w[j]) == gs[j].key
  {
    var base := Column(gs, Summary);
    var w := WithIndex(base);
    forall j | 0 <= j < |w| ensures Summarizes(w[j], c) && DayKey(w[j]) == gs[j].key {
      assert base[j] == Summary(gs[j]);
    }
  }

  lemma {:induction false} TableSummarizes(c: seq<Row>, gs: seq<Group<(DayNum, string), Row>>)
    requires forall j :: 0 <= j < |gs| ==> gs[j].rows == Where(c, Day, gs[j].key) && gs[j].rows != []
    requires forall i, j :: 0 <= i < j < |gs| ==> gs[i].key != gs[j].key
    requires forall x :: x in c ==> exists j :: 0 <= j < |gs| && gs[j].key == Day(x)
    ensures var t := DayTable(gs);
      && (forall i :: 0 <= i < |t| ==> Summarizes(t[i], c))
      && (forall i, j :: 0 <= i < j < |t| ==> DayKey(t[i]) != DayKey(t[j]))
      && (forall x :: x in c ==> exists i :: 0 <= i < |t| && DayKey(t[i]) == Day(x))
  {
    SummariesOfGroups(c, gs);
    SortedSummaries(c, Day, gs, WithIndex(Column(gs, Summary)), DayTable(gs), DayKey, x => Summarizes(x, c));
  }

  /** Every weekday of a completed order has exactly one row, which holds the
      revenue, distinct orders and revenue per order of that day's
      completed rows. */
  lemma {:induction false} DayGroups(rows: seq<Row>)
    ensures var t := DayOfWeekAnalysis(rows);
      && (forall i :: 0 <= i < |t| ==> Summarizes(t[i], Completed(rows)))
      && (forall i, j :: 0 <= i < j < |t| ==> DayKey(t[i]) != DayKey(t[j]))
      && (forall x :: x in Completed(rows) ==> exists i :: 0 <= i < |t| && DayKey(t[i]) == Day(x))
  {
    var c := Completed(rows);
    GroupsCover(c, Day);
    TableSummarizes(c, GroupBy(c, Day));
  }

  /** Grouping by weekday neither loses nor adds revenue. */
  lemma {:induction false} DayTotals(rows: seq<Row>)
    ensures Sum(DayOfWeekAnalysis(rows), DayRevenue) == Sum(Completed(rows), Revenue)
  {
    var c := Completed(rows);
    var gs := GroupBy(c, Day);
    var base := Column(gs, Summary);
    var w := WithIndex(base);
    var t := DayTable(gs);
    forall j | 0 <= j < |w| ensures DayRevenue(w[j]) == Sum(gs[j].rows, Revenue) {
      assert base[j] == Summary(gs[j]);
    }
    SumPerGroup(gs, Revenue, w, DayRevenue);
    SumPermutation(w, t, DayRevenue);
    GroupByPreservesSum(c, Day, Revenue);
  }

  /** The indices average 100: the mean day scores 100 by construction. */
  lemma {:induction false} IndexAverages100(rows: seq<Row>)
    requires Sum(Completed(rows), Revenue) != 0.0
    ensures var t := DayOfWeekAnalysis(rows);
      Sum(t, IndexOrZero) == 100.0 * |t| as real
  {
    DayTotals(rows);
    IndexOfTable(DayOfWeekAnalysis(rows));
  }

  lemma {:induction false} IndexOfTable(t: seq<DayRow>)
    requires IndexColumn(t) && Sum(t, DayRevenue) != 0.0
    ensures Sum(t, IndexOrZero) == 100.0 * |t| as real
  {
    forall i | 0 <= i < |t|
      ensures IndexOrZero(t[i]) == ValueOrZero(Percent(DayRevenue(t[i]) * |t| as real, Sum(t, DayRevenue)))
    {
    }
    IndexSumsTo100PerRow(t, DayRevenue, IndexOrZero);
  }

  /** The table depends on the completed orders only. */
  lemma {:induction false} DayIgnoresOtherStatuses(a: seq<Row>, r: Row, b: seq<Row>)
    requires r.status != COMPLETED
    ensures DayOfWeekAnalysis(a + [r] + b) == DayOfWeekAnalysis(a + b)
  {
    OtherStatusIgnored(a, r, b);
  }
}
