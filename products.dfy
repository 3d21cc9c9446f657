/** `calculate_top_products` and `calculate_top_brands`: the products and the
    brands of the completed orders with the largest revenue, largest first. */
module Products {
  import opened Aggregates
  import opened Ordering
  import opened SalesData

  /** How many products and brands the reports keep. */
  const TOP_PRODUCTS: nat := 20
  const TOP_BRANDS: nat := 15

  datatype ProductRow = ProductRow(
    product: string,
    category: string,
    brand: string,
    revenue: real,
    profit: real,
    units: int,
    orders: nat,
    profitMargin: Fraction)

  function ProductRevenue(r: ProductRow): real { r.revenue }
  function ProductIdentity(r: ProductRow): (string, string, string) { (r.product, r.category, r.brand) }

  /** The `agg` step for one (product, category, brand) group, with the
      profit as a percentage of the revenue. */
  function ProductSummary(g: Group<(string, string, string), Row>): (r: ProductRow)
    ensures ProductIdentity(r) == g.key
    ensures r.revenue == Sum(g.rows, Revenue) && r.profit == Sum(g.rows, Profit)
    ensures r.units == SumInt(g.rows, Units) && r.orders == NUnique(g.rows, OrderId)
    ensures r.profitMargin == Percent(r.profit, r.revenue)
  {
    var revenue := Sum(g.rows, Revenue);
    var profit := Sum(g.rows, Profit);
    ProductRow(g.key.0, g.key.1, g.key.2, revenue, profit, SumInt(g.rows, Units),
               NUnique(g.rows, OrderId), Percent(profit, revenue))
  }

  /** Every product of the completed orders, before `nlargest(20)`. */
  function AllProducts(rows: seq<Row>): (all: seq<ProductRow>)
    ensures |all| == NUnique(Completed(rows), ProductKey)
  {
    Column(GroupBy(Completed(rows), ProductKey), ProductSummary)
  }

  /** The `calculate_top_products` table: at most twenty products, the ones
      with the largest revenue, largest first, each one of the products. */
  function TopProducts(rows: seq<Row>): (t: seq<ProductRow>)
    ensures |t| <= TOP_PRODUCTS
    ensures |t| == if |AllProducts(rows)| < TOP_PRODUCTS then |AllProducts(rows)| else TOP_PRODUCTS
    ensures Descending(t, ProductRevenue)
    ensures multiset(t) <= multiset(AllProducts(rows))
  {
    Largest(AllProducts(rows), TOP_PRODUCTS, ProductRevenue)
  }

  /** The row `x` holds the figures of exactly the rows of `c` selling its
      product, of which there is at least one. */
  predicate ProductSummarizes(x: ProductRow, c: seq<Row>) {
    var m := Where(c, ProductKey, ProductIdentity(x));
    && m != []
    && x.revenue == Sum(m, Revenue) && x.profit == Sum(m, Profit)
    && x.units == SumInt(m, Units) && x.orders == NUnique(m, OrderId)
    && x.profitMargin == Percent(x.profit, x.revenue)
  }

  lemma {:induction false} ProductSummaries(c: seq<Row>, gs: seq<Group<(string, string, string), Row>>)
    requires forall j :: 0 <= j < |gs| ==> gs[j].rows == Where(c, ProductKey, gs[j].key) && gs[j].rows != []
    ensures var w := Column(gs, ProductSummary);
      forall j :: 0 <= j < |w| ==> ProductSummarizes(w[j], c) && ProductIdentity(w[j]) == gs[j].key
  {
    var w := Column(gs, ProductSummary);
    forall j | 0 <= j < |w| ensures ProductSummarizes(w[j], c) && ProductIdentity(w[j]) == gs[j].key {
      assert w[j] == ProductSummary(gs[j]);
    }
  }

  /** Every row of the report summarises the completed rows of its product,
      and no product appears twice. */
  lemma {:induction false} TopProductGroups(rows: seq<Row>)
    ensures var t := TopProducts(rows);
      && (forall i :: 0 <= i < |t| ==> ProductSummarizes(t[i], Completed(rows)))
      && (forall i, j :: 0 <= i < j < |t| ==> ProductIdentity(t[i]) != ProductIdentity(t[j]))
  {
    var c := Completed(rows);
    SelectedProducts(c, GroupBy(c, ProductKey), TopProducts(rows));
  }

  /** Rows selected from the summaries of the groups of `c` each summarise
      their own product, with no product twice. */
  lemma {:induction false} SelectedProducts(c: seq<Row>, gs: seq<Group<(string, string, string), Row>>, t: seq<ProductRow>)
    requires forall j :: 0 <= j < |gs| ==> gs[j].rows == Where(c, ProductKey, gs[j].key) && gs[j].rows != []
    requires forall i, j :: 0 <= i < j < |gs| ==> gs[i].key != gs[j].key
    requires multiset(t) <= multiset(Column(gs, ProductSummary))
    ensures forall i :: 0 <= i < |t| ==> ProductSummarizes(t[i], c)
    ensures forall i, j :: 0 <= i < j < |t| ==> ProductIdentity(t[i]) != ProductIdentity(t[j])
  {
    ProductSummaries(c, gs);
    SelectedSummaries(gs, Column(gs, ProductSummary), t, ProductIdentity, x => ProductSummarizes(x, c));
  }

  /** A product left out of the report has no more revenue than any product
      kept. */
  lemma {:induction false} TopProductsDominate(rows: seq<Row>, x: ProductRow, y: ProductRow)
    requires x in AllProducts(rows) && x !in TopProducts(rows)
    requires y in TopProducts(rows)
    ensures x.revenue <= y.revenue
  {
    LargestDominates(AllProducts(rows), TOP_PRODUCTS, ProductRevenue, x, y);
  }

  /** A product's margin is defined exactly when it has revenue, and then
      it is the profit per hundred of revenue. */
  lemma {:induction false} ProductMargin(x: ProductRow)
    requires x.profitMargin == Percent(x.profit, x.revenue)
    ensures Defined(x.profitMargin) <==> x.revenue != 0.0
    ensures x.revenue != 0.0 ==> Value(x.profitMargin).value * x.revenue == x.profit * 100.0
  {
    if x.revenue != 0.0 {
      PercentTimesWhole(x.profit, x.revenue);
    }
  }

  /** The table depends on the completed orders only. */
  lemma {:induction false} TopProductsIgnoreOtherStatuses(a: seq<Row>, r: Row, b: seq<Row>)
    requires r.status != COMPLETED
    ensures TopProducts(a + [r] + b) == TopProducts(a + b)
  {
    OtherStatusIgnored(a, r, b);
  }

  datatype BrandRow = BrandRow(
    brand: string,
    revenue: real,
    profit: real,
    units: int,
    orders: nat,
    marketShare: Fraction)

  function BrandRevenue(r: BrandRow): real { r.revenue }
  function BrandName(r: BrandRow): string { r.brand }

  /** The share as the figures add it up: an undefined share counts 0. */
  function ShareOrZero(r: BrandRow): real { ValueOrZero(r.marketShare) }

  /** The `agg` step for one brand, before the share column exists. */
  function BrandSummary(g: Group<string, Row>): (r: BrandRow)
    ensures r.brand == g.key
    ensures r.revenue == Sum(g.rows, Revenue) && r.profit == Sum(g.rows, Profit)
    ensures r.units == SumInt(g.rows, Units) && r.orders == NUnique(g.rows, OrderId)
  {
    BrandRow(g.key, Sum(g.rows, Revenue), Sum(g.rows, Profit), SumInt(g.rows, Units),
             NUnique(g.rows, OrderId), Fraction(0.0, 0.0))
  }

  /** The `market_share` column: each revenue as a percentage of the column
      total, taken over every brand before `nlargest(15)`. */
  function WithShares(t: seq<BrandRow>): (u: seq<BrandRow>)
    ensures |u| == |t|
    ensures forall i :: 0 <= i < |t| ==>
      u[i] == t[i].(marketShare := Percent(t[i].revenue, Sum(t, BrandRevenue)))
  {
    var total := Sum(t, BrandRevenue);
    seq(|t|, i requires 0 <= i < |t| => t[i].(marketShare := Percent(t[i].revenue, total)))
  }

  /** Every row's share is its revenue as a percentage of `total`. */
  predicate SharesOf(t: seq<BrandRow>, total: real) {
    forall i :: 0 <= i < |t| ==> t[i].marketShare == Percent(t[i].revenue, total)
  }

  /** Every brand of the completed orders with its share, before
      `nlargest(15)`. */
  function AllBrands(rows: seq<Row>): (all: seq<BrandRow>)
    ensures |all| == NUnique(Completed(rows), Brand)
    ensures SharesOf(all, Sum(all, BrandRevenue))
  {
    var base := Column(GroupBy(Completed(rows), Brand), BrandSummary);
    SharesOfWithShares(base);
    WithShares(base)
  }

  lemma {:induction false} SharesOfWithShares(base: seq<BrandRow>)
    ensures SharesOf(WithShares(base), Sum(WithShares(base), BrandRevenue))
  {
    SumPointwise(WithShares(base), BrandRevenue, base, BrandRevenue);
  }

  /** The `calculate_top_brands` table: at most fifteen brands, the ones
      with the largest revenue, largest first, each one of the brands with
      the share it has among all of them. */
  function TopBrands(rows: seq<Row>): (t: seq<BrandRow>)
    ensures |t| <= TOP_BRANDS
    ensures |t| == if |AllBrands(rows)| < TOP_BRANDS then |AllBrands(rows)| else TOP_BRANDS
    ensures Descending(t, BrandRevenue)
    ensures multiset(t) <= multiset(AllBrands(rows))
  {
    Largest(AllBrands(rows), TOP_BRANDS, BrandRevenue)
  }

  /** The row `x` holds the figures of exactly the rows of `c` of its brand,
      of which there is at least one. */
  predicate BrandSummarizes(x: BrandRow, c: seq<Row>) {
    var m := Where(c, Brand, x.brand);
    && m != []
    && x.revenue == Sum(m, Revenue) && x.profit == Sum(m, Profit)
    && x.units == SumInt(m, Units) && x.orders == NUnique(m, OrderId)
  }

  lemma {:induction false} BrandSummaries(c: seq<Row>, gs: seq<Group<string, Row>>)
    requires forall j :: 0 <= j < |gs| ==> gs[j].rows == Where(c, Brand, gs[j].key) && gs[j].rows != []
    ensures var w := WithShares(Column(gs, BrandSummary));
      forall j :: 0 <= j < |w| ==> BrandSummarizes(w[j], c) && BrandName(w[j]) == gs[j].key
  {
    var base := Column(gs, BrandSummary);
    var w := WithShares(base);
    forall j | 0 <= j < |w| ensures BrandSummarizes(w[j], c) && BrandName(w[j]) == gs[j].key {
      assert base[j] == BrandSummary(gs[j]);
    }
  }

  /** Every row of the report summarises the completed rows of its brand,
      and no brand appears twice. */
  lemma {:induction false} TopBrandGroups(rows: seq<Row>)
    ensures var t := TopBrands(rows);
      && (forall i :: 0 <= i < |t| ==> BrandSummarizes(t[i], Completed(rows)))
      && (forall i, j :: 0 <= i < j < |t| ==> t[i].brand != t[j].brand)
  {
    var c := Completed(rows);
    SelectedBrands(c, GroupBy(c, Brand), TopBrands(rows));
  }

  /** Rows selected from the summaries of the groups of `c` each summarise
      their own brand, with no brand twice. */
  lemma {:induction false} SelectedBrands(c: seq<Row>, gs: seq<Group<string, Row>>, t: seq<BrandRow>)
    requires forall j :: 0 <= j < |gs| ==> gs[j].rows == Where(c, Brand, gs[j].key) && gs[j].rows != []
    requires forall i, j :: 0 <= i < j < |gs| ==> gs[i].key != gs[j].key
    requires multiset(t) <= multiset(WithShares(Column(gs, BrandSummary)))
    ensures forall i :: 0 <= i < |t| ==> BrandSummarizes(t[i], c)
    ensures forall i, j :: 0 <= i < j < |t| ==> t[i].brand != t[j].brand
  {
    BrandSummaries(c, gs);
    SelectedSummaries(gs, WithShares(Column(gs, BrandSummary)), t, BrandName, x => BrandSummarizes(x, c));
  }

  /** A brand left out of the report has no more revenue than any brand
      kept. */
  lemma {:induction false} TopBrandsDominate(rows: seq<Row>, x: BrandRow, y: BrandRow)
    requires x in AllBrands(rows) && x !in TopBrands(rows)
    requires y in TopBrands(rows)
    ensures x.revenue <= y.revenue
  {
    LargestDominates(AllBrands(rows), TOP_BRANDS, BrandRevenue, x, y);
  }

  /** Grouping by brand neither loses nor adds revenue. */
  lemma {:induction false} BrandTotals(rows: seq<Row>)
    ensures Sum(AllBrands(rows), BrandRevenue) == Sum(Completed(rows), Revenue)
  {
    var c := Completed(rows);
    var gs := GroupBy(c, Brand);
    var base := Column(gs, BrandSummary);
    var w := WithShares(base);
    forall j | 0 <= j < |w| ensures BrandRevenue(w[j]) == Sum(gs[j].rows, Revenue) {
      assert base[j] == BrandSummary(gs[j]);
    }
    SumPerGroup(gs, Revenue, w, BrandRevenue);
    GroupByPreservesSum(c, Brand, Revenue);
  }

  /** The share of every brand kept is its revenue as a percentage of the
      revenue of all completed orders, not only of the brands kept. */
  lemma {:induction false} TopBrandShares(rows: seq<Row>)
    ensures SharesOf(TopBrands(rows), Sum(Completed(rows), Revenue))
  {
    var all := AllBrands(rows);
    BrandTotals(rows);
    SelectionKeeps(all, TopBrands(rows), (x: BrandRow) => x.marketShare == Percent(x.revenue, Sum(Completed(rows), Revenue)));
  }

  /** The shares of all brands add up to 100 whenever the completed revenue
      is not zero. */
  lemma {:induction false} BrandSharesSumTo100(rows: seq<Row>)
    requires Sum(Completed(rows), Revenue) != 0.0
    ensures Sum(AllBrands(rows), ShareOrZero) == 100.0
  {
    BrandTotals(rows);
    SharesSumTo100(AllBrands(rows), BrandRevenue, ShareOrZero);
  }

  /** The table depends on the completed orders only. */
  lemma {:induction false} TopBrandsIgnoreOtherStatuses(a: seq<Row>, r: Row, b: seq<Row>)
    requires r.status != COMPLETED
    ensures TopBrands(a + [r] + b) == TopBrands(a + b)
  {
    OtherStatusIgnored(a, r, b);
  }
}
