/** `calculate_category_performance`: one row per category of the completed
    orders, largest revenue first, with its share of the revenue, the running
    total of the shares and the Pareto class that the running total decides. */
module Category {
  import opened Aggregates
  import opened Ordering
  import opened Windows
  import opened SalesData

  const TOP_PERFORMER: string := "Top Performer"
  const SUPPORTING: string := "Supporting"

  /** The running share up to which categories count as top performers. */
  const PARETO_LIMIT: real := 80.0

  datatype CategoryRow = CategoryRow(
    category: string,
    revenue: real,
    profit: real,
    orders: nat,
    units: int,
    profitMargin: Fraction,
    revenueShare: Fraction,
    cumulativeShare: Option<real>,
    paretoClass: string)

  function CategoryRevenue(r: CategoryRow): real { r.revenue }
  function CategoryProfit(r: CategoryRow): real { r.profit }
  function CategoryUnits(r: CategoryRow): int { r.units }
  function CategoryUnitsReal(r: CategoryRow): real { r.units as real }

  /** The share as `cumsum` adds it up: an undefined share adds nothing. */
  function ShareOrZero(r: CategoryRow): real { ValueOrZero(r.revenueShare) }

  /** The `agg` step for one category, before the share columns exist. */
  function Summary(g: Group<string, Row>): (r: CategoryRow)
    ensures r.category == g.key
    ensures r.revenue == Sum(g.rows, Revenue) && r.profit == Sum(g.rows, Profit)
    ensures r.orders == NUnique(g.rows, OrderId) && r.units == SumInt(g.rows, Units)
    ensures r.profitMargin == Percent(r.profit, r.revenue)
  {
    var revenue := Sum(g.rows, Revenue);
    var profit := Sum(g.rows, Profit);
    CategoryRow(g.key, revenue, profit, NUnique(g.rows, OrderId), SumInt(g.rows, Units),
                Percent(profit, revenue), Fraction(0.0, 0.0), None, "")
  }

  /** The `revenue_share` column: each revenue as a percentage of the column total. */
  function WithShares(t: seq<CategoryRow>): (u: seq<CategoryRow>)
    ensures |u| == |t|
    ensures forall i :: 0 <= i < |t| ==>
      u[i] == t[i].(revenueShare := Percent(t[i].revenue, Sum(t, CategoryRevenue)))
  {
    var total := Sum(t, CategoryRevenue);
    seq(|t|, i requires 0 <= i < |t| => t[i].(revenueShare := Percent(t[i].revenue, total)))
  }

  /** "Top Performer" exactly when the running share is a number no greater
      than 80; an undefined share (NaN) compares false and is "Supporting". */
  function ParetoClass(cumulative: Option<real>): (c: string)
    ensures c == TOP_PERFORMER <==> cumulative.Some? && cumulative.value <= PARETO_LIMIT
    ensures c == TOP_PERFORMER || c == SUPPORTING
  {
    if cumulative.Some? && cumulative.value <= PARETO_LIMIT then TOP_PERFORMER else SUPPORTING
  }

  /** The `cumulative_share` and `pareto_class` columns over rows already in
      their final order. */
  function WithPareto(r: seq<CategoryRow>): (u: seq<CategoryRow>)
    ensures |u| == |r|
    ensures forall i {:trigger u[i]} :: 0 <= i < |r| ==>
      var cumulative := if Defined(r[i].revenueShare) then Some(Sum(r[..i + 1], ShareOrZero)) else None;
      u[i] == r[i].(cumulativeShare := cumulative, paretoClass := ParetoClass(cumulative))
  {
    var running := CumSum(Column(r, ShareOrZero));
    CumSumOfColumn(r, ShareOrZero);
    seq(|r|, i requires 0 <= i < |r| =>
      var cumulative := if Defined(r[i].revenueShare) then Some(running[i]) else None;
      r[i].(cumulativeShare := cumulative, paretoClass := ParetoClass(cumulative)))
  }

  /** The derived columns of the category table `t`: the margin of each
      row's own profit over its revenue; its share of the table's revenue;
      the running total of the shares down to this row, present exactly when
      the share is; and the Pareto class, "Top Performer" exactly when the
      running total is present and at most 80. */
  predicate CategoryColumns(t: seq<CategoryRow>) {
    forall i :: 0 <= i < |t| ==>
      && t[i].profitMargin == Percent(t[i].profit, t[i].revenue)
      && t[i].revenueShare == Percent(t[i].revenue, Sum(t, CategoryRevenue))
      && (t[i].cumulativeShare.Some? <==> Defined(t[i].revenueShare))
      && (t[i].cumulativeShare.Some? ==> t[i].cumulativeShare.value == Sum(t[..i + 1], ShareOrZero))
      && (t[i].paretoClass == TOP_PERFORMER || t[i].paretoClass == SUPPORTING)
      && (t[i].paretoClass == TOP_PERFORMER <==>
            t[i].cumulativeShare.Some? && t[i].cumulativeShare.value <= PARETO_LIMIT)
  }

  /** The categories of the groups `gs` with their shares, largest revenue first. */
  function Ranked(gs: seq<Group<string, Row>>): (r: seq<CategoryRow>)
    ensures |r| == |gs|
    ensures Descending(r, CategoryRevenue)
    ensures multiset(r) == multiset(WithShares(Column(gs, Summary)))
  {
    SortDesc(WithShares(Column(gs, Summary)), CategoryRevenue)
  }

  /** The category table built from the groups `gs`. */
  function CategoryTable(gs: seq<Group<string, Row>>): (t: seq<CategoryRow>)
    ensures |t| == |gs|
    ensures Descending(t, CategoryRevenue) && CategoryColumns(t)
  {
    var r := Ranked(gs);
    RankedFacts(gs);
    ParetoColumns(r);
    WithPareto(r)
  }

  /** Adding the cumulative and Pareto columns to ranked rows whose ratios
      agree gives a table with all its columns. */
  lemma {:induction false} ParetoColumns(r: seq<CategoryRow>)
    requires Descending(r, CategoryRevenue)
    requires forall i :: 0 <= i < |r| ==> RatiosAgree(r[i], Sum(r, CategoryRevenue))
    ensures Descending(WithPareto(r), CategoryRevenue) && CategoryColumns(WithPareto(r))
  {
    ParetoKeepsColumns(r, WithPareto(r));
  }

  /** The `calculate_category_performance` table. */
  function CategoryPerformance(rows: seq<Row>): (t: seq<CategoryRow>)
    ensures |t| == NUnique(Completed(rows), Category)
    ensures Descending(t, CategoryRevenue) && CategoryColumns(t)
  {
    CategoryTable(GroupBy(Completed(rows), Category))
  }

  /** The margin and the share of one row agree with its revenue, its profit
      and the revenue total `total`. */
  predicate RatiosAgree(x: CategoryRow, total: real) {
    x.profitMargin == Percent(x.profit, x.revenue) && x.revenueShare == Percent(x.revenue, total)
  }

  lemma {:induction false} RankedFacts(gs: seq<Group<string, Row>>)
    ensures var r := Ranked(gs);
      forall i :: 0 <= i < |r| ==> RatiosAgree(r[i], Sum(r, CategoryRevenue))
  {
    var base := Column(gs, Summary);
    assert forall j :: 0 <= j < |base| ==> base[j] == Summary(gs[j]);
    SharesAgree(base);
    RatiosSurviveSort(WithShares(base), Ranked(gs));
  }

  lemma {:induction false} RatiosSurviveSort(w: seq<CategoryRow>, r: seq<CategoryRow>)
    requires multiset(w) == multiset(r)
    requires forall j :: 0 <= j < |w| ==> RatiosAgree(w[j], Sum(w, CategoryRevenue))
    ensures forall i :: 0 <= i < |r| ==> RatiosAgree(r[i], Sum(r, CategoryRevenue))
  {
    SumPermutation(w, r, CategoryRevenue);
    SelectionKeeps(w, r, x => RatiosAgree(x, Sum(r, CategoryRevenue)));
  }

  lemma {:induction false} SharesAgree(base: seq<CategoryRow>)
    requires forall j :: 0 <= j < |base| ==> base[j].profitMargin == Percent(base[j].profit, base[j].revenue)
    ensures var w := WithShares(base);
      forall j :: 0 <= j < |w| ==> RatiosAgree(w[j], Sum(w, CategoryRevenue))
  {
    var w := WithShares(base);
    SumPointwise(w, CategoryRevenue, base, CategoryRevenue);
  }

  /** Adding the Pareto columns changes no other column. */
  lemma {:induction false} ParetoKeepsColumns(r: seq<CategoryRow>, t: seq<CategoryRow>)
    requires t == WithPareto(r)
    ensures forall i :: 0 <= i < |t| ==>
      && t[i].category == r[i].category && t[i].revenue == r[i].revenue && t[i].profit == r[i].profit
      && t[i].orders == r[i].orders && t[i].units == r[i].units
      && t[i].profitMargin == r[i].profitMargin && t[i].revenueShare == r[i].revenueShare
      && Sum(t[..i + 1], ShareOrZero) == Sum(r[..i + 1], ShareOrZero)
    ensures Sum(t, CategoryRevenue) == Sum(r, CategoryRevenue)
  {
    SumPointwise(t, CategoryRevenue, r, CategoryRevenue);
    forall i | 0 <= i < |t|
      ensures t[i].revenueShare == r[i].revenueShare
      ensures Sum(t[..i + 1], ShareOrZero) == Sum(r[..i + 1], ShareOrZero)
    {
      SumPointwise(t[..i + 1], ShareOrZero, r[..i + 1], ShareOrZero);
    }
  }

  function CategoryName(r: CategoryRow): string { r.category }

  /** The row `x` holds the sums and the distinct order count of exactly the
      rows of `c` in its category, of which there is at least one. */
  predicate Summarizes(x: CategoryRow, c: seq<Row>) {
    var m := Where(c, Category, x.category);
    && m != []
    && x.revenue == Sum(m, Revenue) && x.profit == Sum(m, Profit)
    && x.orders == NUnique(m, OrderId) && x.units == SumInt(m, Units)
  }

  /** Before sorting, each row summarises the group it was built from. */
  lemma {:induction false} SummariesOfGroups(c: seq<Row>, gs: seq<Group<string, Row>>)
    requires forall j :: 0 <= j < |gs| ==> gs[j].rows == Where(c, Category, gs[j].key) && gs[j].rows != []
    ensures var w := WithShares(Column(gs, Summary));
      forall j :: 0 <= j < |w| ==> Summarizes(w[j], c) && CategoryName(w[j]) == gs[j].key
  {
    var base := Column(gs, Summary);
    var w := WithShares(base);
    forall j | 0 <= j < |w| ensures Summarizes(w[j], c) && CategoryName(w[j]) == gs[j].key {
      assert base[j] == Summary(gs[j]);
    }
  }

  /** Sorted, the rows still summarise their categories, one row per group. */
  lemma {:induction false} RankedSummarizes(c: seq<Row>, gs: seq<Group<string, Row>>)
    requires forall j :: 0 <= j < |gs| ==> gs[j].rows == Where(c, Category, gs[j].key) && gs[j].rows != []
    requires forall i, j :: 0 <= i < j < |gs| ==> gs[i].key != gs[j].key
    ensures var r := Ranked(gs);
      && (forall i :: 0 <= i < |r| ==> Summarizes(r[i], c))
      && (forall i, j :: 0 <= i < j < |r| ==> r[i].category != r[j].category)
      && (forall j :: 0 <= j < |gs| ==> exists i :: 0 <= i < |r| && r[i].category == gs[j].key)
  {
    var w := WithShares(Column(gs, Summary));
    var r := Ranked(gs);
    SummariesOfGroups(c, gs);
    SelectionKeeps(w, r, x => Summarizes(x, c));
    KeysStayDistinct(w, r, CategoryName);
    KeysCovered(w, r, CategoryName);
  }

  /** Built from the groups of `c`, the table has one row per group, each
      summarising its own category, with no category twice. */
  lemma {:induction false} TableSummarizes(c: seq<Row>, gs: seq<Group<string, Row>>)
    requires forall j :: 0 <= j < |gs| ==> gs[j].rows == Where(c, Category, gs[j].key) && gs[j].rows != []
    requires forall i, j :: 0 <= i < j < |gs| ==> gs[i].key != gs[j].key
    requires forall x :: x in c ==> exists j :: 0 <= j < |gs| && gs[j].key == x.category
    ensures var t := CategoryTable(gs);
      && (forall i :: 0 <= i < |t| ==> Summarizes(t[i], c))
      && (forall i, j :: 0 <= i < j < |t| ==> t[i].category != t[j].category)
      && (forall x :: x in c ==> exists i :: 0 <= i < |t| && t[i].category == x.category)
  {
    var r := Ranked(gs);
    var t := WithPareto(r);
    assert CategoryTable(gs) == t;
    RankedSummarizes(c, gs);
    ParetoKeepsColumns(r, t);
    forall i | 0 <= i < |t| ensures Summarizes(t[i], c) {
      assert Summarizes(r[i], c);
    }
    forall x | x in c ensures exists i :: 0 <= i < |t| && t[i].category == x.category {
      var j :| 0 <= j < |gs| && gs[j].key == x.category;
      var i :| 0 <= i < |r| && r[i].category == gs[j].key;
      assert t[i].category == x.category;
    }
  }

  /** Every category with a completed order has exactly one row, which holds
      the revenue, profit, distinct orders and units of that category's
      completed rows. */
  lemma {:induction false} CategoryGroups(rows: seq<Row>)
    ensures var t := CategoryPerformance(rows);
      && (forall i :: 0 <= i < |t| ==> Summarizes(t[i], Completed(rows)))
      && (forall i, j :: 0 <= i < j < |t| ==> t[i].category != t[j].category)
      && (forall x :: x in Completed(rows) ==> exists i :: 0 <= i < |t| && t[i].category == x.category)
  {
    var c := Completed(rows);
    GroupsCover(c, Category);
    TableSummarizes(c, GroupBy(c, Category));
  }

  /** The table's revenue, profit and units columns add up to the same
      columns of the grouped rows. */
  lemma {:induction false} TableTotals(gs: seq<Group<string, Row>>)
    ensures var t := CategoryTable(gs);
      && Sum(t, CategoryRevenue) == SumOverGroups(gs, Revenue)
      && Sum(t, CategoryProfit) == SumOverGroups(gs, Profit)
      && Sum(t, CategoryUnitsReal) == SumOverGroups(gs, UnitsReal)
  {
    var base := Column(gs, Summary);
    var w := WithShares(base);
    var r := Ranked(gs);
    var t := WithPareto(r);
    assert CategoryTable(gs) == t;
    forall j | 0 <= j < |w|
      ensures CategoryRevenue(w[j]) == Sum(gs[j].rows, Revenue)
      ensures CategoryProfit(w[j]) == Sum(gs[j].rows, Profit)
      ensures CategoryUnitsReal(w[j]) == Sum(gs[j].rows, UnitsReal)
    {
      assert base[j] == Summary(gs[j]);
      SumIntAsReal(gs[j].rows, Units, UnitsReal);
    }
    SumPerGroup(gs, Revenue, w, CategoryRevenue);
    SumPerGroup(gs, Profit, w, CategoryProfit);
    SumPerGroup(gs, UnitsReal, w, CategoryUnitsReal);
    SumPermutation(w, r, CategoryRevenue);
    SumPermutation(w, r, CategoryProfit);
    SumPermutation(w, r, CategoryUnitsReal);
    ParetoKeepsColumns(r, t);
    SumPointwise(t, CategoryProfit, r, CategoryProfit);
    SumPointwise(t, CategoryUnitsReal, r, CategoryUnitsReal);
  }

  /** Grouping by category neither loses nor adds revenue, profit or units. */
  lemma {:induction false} CategoryTotals(rows: seq<Row>)
    ensures var t := CategoryPerformance(rows);
      && Sum(t, CategoryRevenue) == Sum(Completed(rows), Revenue)
      && Sum(t, CategoryProfit) == Sum(Completed(rows), Profit)
      && SumInt(t, CategoryUnits) == SumInt(Completed(rows), Units)
  {
    var c := Completed(rows);
    var t := CategoryPerformance(rows);
    TableTotals(GroupBy(c, Category));
    GroupByPreservesSum(c, Category, Revenue);
    GroupByPreservesSum(c, Category, Profit);
    GroupByPreservesSum(c, Category, UnitsReal);
    SumIntAsReal(t, CategoryUnits, CategoryUnitsReal);
    CompletedUnitsTotal(rows);
  }

  /** Over a table with a nonzero revenue total, the shares add up to 100
      and the running total of the last row is 100. */
  lemma {:induction false} SharesComplete(t: seq<CategoryRow>)
    requires CategoryColumns(t)
    requires Sum(t, CategoryRevenue) != 0.0
    ensures Sum(t, ShareOrZero) == 100.0
    ensures |t| > 0 ==> t[|t| - 1].cumulativeShare == Some(100.0)
  {
    SharesSumTo100(t, CategoryRevenue, ShareOrZero);
    if |t| > 0 {
      assert t[..|t|] == t;
    }
  }

  /** The category shares of the completed revenue add up to 100, and so the
      running total ends at 100. */
  lemma {:induction false} CategorySharesSumTo100(rows: seq<Row>)
    requires Sum(Completed(rows), Revenue) != 0.0
    ensures var t := CategoryPerformance(rows);
      && Sum(t, ShareOrZero) == 100.0
      && (|t| > 0 ==> t[|t| - 1].cumulativeShare == Some(100.0))
  {
    CategoryTotals(rows);
    SharesComplete(CategoryPerformance(rows));
  }

  /** Over non-negative revenues the running share never decreases, so the
      top performers are a prefix of the table. */
  lemma {:induction false} ParetoPrefixOfTable(t: seq<CategoryRow>)
    requires CategoryColumns(t)
    requires forall i :: 0 <= i < |t| ==> t[i].revenue >= 0.0
    ensures forall i, j :: 0 <= i <= j < |t| && t[j].cumulativeShare.Some? ==>
      t[i].cumulativeShare.Some? && t[i].cumulativeShare.value <= t[j].cumulativeShare.value
    ensures forall i, j :: 0 <= i <= j < |t| && t[j].paretoClass == TOP_PERFORMER ==>
      t[i].paretoClass == TOP_PERFORMER
  {
    var total := Sum(t, CategoryRevenue);
    SumNonNegative(t, CategoryRevenue);
    forall x | x in t ensures ShareOrZero(x) >= 0.0 {
      if total > 0.0 {
        PercentNonNegative(x.revenue, total);
      }
    }
    forall i, j | 0 <= i <= j < |t| && t[j].cumulativeShare.Some?
      ensures t[i].cumulativeShare.Some? && t[i].cumulativeShare.value <= t[j].cumulativeShare.value
    {
      assert t[..j + 1] == t[..i + 1] + t[i + 1..j + 1];
      SumConcat(t[..i + 1], t[i + 1..j + 1], ShareOrZero);
      SumNonNegative(t[i + 1..j + 1], ShareOrZero);
    }
  }

  /** When no completed order has a negative revenue, the categories marked
      "Top Performer" come first and the running share never decreases. */
  lemma {:induction false} ParetoPrefix(rows: seq<Row>)
    requires forall x :: x in Completed(rows) ==> x.revenue >= 0.0
    ensures var t := CategoryPerformance(rows);
      && (forall i, j :: 0 <= i <= j < |t| && t[j].cumulativeShare.Some? ==>
            t[i].cumulativeShare.Some? && t[i].cumulativeShare.value <= t[j].cumulativeShare.value)
      && (forall i, j :: 0 <= i <= j < |t| && t[j].paretoClass == TOP_PERFORMER ==>
            t[i].paretoClass == TOP_PERFORMER)
  {
    var c := Completed(rows);
    var t := CategoryPerformance(rows);
    CategoryGroups(rows);
    forall i | 0 <= i < |t| ensures t[i].revenue >= 0.0 {
      var m := Where(c, Category, t[i].category);
      assert forall x :: x in m ==> x in c;
      SumNonNegative(m, Revenue);
    }
    ParetoPrefixOfTable(t);
  }

  /** The table depends on the completed orders only. */
  lemma {:induction false} CategoryIgnoresOtherStatuses(a: seq<Row>, r: Row, b: seq<Row>)
    requires r.status != COMPLETED
    ensures CategoryPerformance(a + [r] + b) == CategoryPerformance(a + b)
  {
    OtherStatusIgnored(a, r, b);
  }
}
