/** `calculate_prime_analysis`: the completed orders of Prime members against
    those of other customers, "Non-Prime" first, with the revenue per order
    and per customer and the orders per customer. */
module Prime {
  import opened Aggregates
  import opened Ordering
  import opened SalesData

  const PRIME: string := "Prime"
  const NON_PRIME: string := "Non-Prime"

  /** A row of the table; the `IsPrime` column shows `Label(prime)`. */
  datatype PrimeRow = PrimeRow(
    prime: bool,
    revenue: real,
    avgOrderValue: Fraction,
    profit: real,
    orders: nat,
    customers: nat,
    units: int,
    ordersPerCustomer: Fraction,
    revenuePerCustomer: Fraction)

  function PrimeRevenue(r: PrimeRow): real { r.revenue }
  function PrimeProfit(r: PrimeRow): real { r.profit }

  /** The label that replaces the membership flag. */
  function Label(prime: bool): (l: string)
    ensures l == PRIME <==> prime
    ensures l == NON_PRIME <==> !prime
  {
    if prime then PRIME else NON_PRIME
  }

  /** The text of a row's `IsPrime` column. */
  function PrimeLabel(r: PrimeRow): string { Label(r.prime) }

  /** The `agg` step for one membership group, with its labels and ratios. */
  function Summary(g: Group<bool, Row>): (r: PrimeRow)
    ensures r.prime == g.key
    ensures r.revenue == Sum(g.rows, Revenue) && r.profit == Sum(g.rows, Profit)
    ensures r.orders == NUnique(g.rows, OrderId) && r.customers == NUnique(g.rows, Customer)
    ensures r.units == SumInt(g.rows, Units)
    ensures r.avgOrderValue == Fraction(r.revenue, |g.rows| as real)
    ensures r.ordersPerCustomer == Fraction(r.orders as real, r.customers as real)
    ensures r.revenuePerCustomer == Fraction(r.revenue, r.customers as real)
  {
    var revenue := Sum(g.rows, Revenue);
    var orders := NUnique(g.rows, OrderId);
    var customers := NUnique(g.rows, Customer);
    PrimeRow(g.key, revenue, Mean(g.rows, Revenue), Sum(g.rows, Profit), orders, customers,
             SumInt(g.rows, Units), Fraction(orders as real, customers as real),
             Fraction(revenue, customers as real))
  }

  /** Whether a table row is the Prime members' row. */
  function Membership(r: PrimeRow): bool { r.prime }

  /** `groupby` orders its boolean keys `False` before `True`. */
  function MembershipRank(r: PrimeRow): int {
    if Membership(r) then 1 else 0
  }

  /** At most two rows, and "Non-Prime" before "Prime" when both are there. */
  predicate LabelOrder(t: seq<PrimeRow>) {
    && |t| <= 2
    && (|t| == 2 ==> PrimeLabel(t[0]) == NON_PRIME && PrimeLabel(t[1]) == PRIME)
  }

  /** The table built from the membership groups `gs`, non-members first. */
  function PrimeTable(gs: seq<Group<bool, Row>>): (t: seq<PrimeRow>)
    ensures |t| == |gs|
    ensures Ascending(t, MembershipRank)
    ensures multiset(t) == multiset(Column(gs, Summary))
  {
    SortAsc(Column(gs, Summary), MembershipRank)
  }

  /** The `calculate_prime_analysis` table. */
  function PrimeAnalysis(rows: seq<Row>): (t: seq<PrimeRow>)
    ensures |t| == NUnique(Completed(rows), IsPrime)
    ensures LabelOrder(t)
  {
    var gs := GroupBy(Completed(rows), IsPrime);
    TableOrder(gs);
    PrimeTable(gs)
  }

  /** Groups with different flags give at most two rows, each labelled, in
      label order. */
  lemma {:induction false} TableOrder(gs: seq<Group<bool, Row>>)
    requires forall i, j :: 0 <= i < j < |gs| ==> gs[i].key != gs[j].key
    ensures LabelOrder(PrimeTable(gs))
  {
    var w := Column(gs, Summary);
    var t := PrimeTable(gs);
    forall j | 0 <= j < |w| ensures Membership(w[j]) == gs[j].key {
      assert w[j] == Summary(gs[j]);
    }
    SortedSummaries([], IsPrime, gs, w, t, Membership, _ => true);
    MembershipOrder(t);
  }

  /** Rows sorted by membership, no membership twice: at most two, "Non-Prime"
      first. */
  lemma {:induction false} MembershipOrder(t: seq<PrimeRow>)
    requires Ascending(t, MembershipRank)
    requires forall i, j :: 0 <= i < j < |t| ==> Membership(t[i]) != Membership(t[j])
    ensures LabelOrder(t)
  {
    MembersSplit(t);
    MembersAtMostOne(t, true);
    MembersAtMostOne(t, false);
    if |t| == 2 {
      assert MembershipRank(t[0]) <= MembershipRank(t[1]);
    }
  }

  /** The number of rows of `t` whose membership is `b`. */
  function Members(t: seq<PrimeRow>, b: bool): nat {
    if t == [] then 0 else (if Membership(t[0]) == b then 1 else 0) + Members(t[1..], b)
  }

  /** Every row is either a member row or not. */
  lemma {:induction false} MembersSplit(t: seq<PrimeRow>)
    ensures Members(t, true) + Members(t, false) == |t|
  {
    if t != [] {
      MembersSplit(t[1..]);
    }
  }

  lemma {:induction false} MembersNone(t: seq<PrimeRow>, b: bool)
    requires forall i :: 0 <= i < |t| ==> Membership(t[i]) != b
    ensures Members(t, b) == 0
  {
    if t != [] {
      MembersNone(t[1..], b);
    }
  }

  /** With no membership twice, each membership has at most one row. */
  lemma {:induction false} MembersAtMostOne(t: seq<PrimeRow>, b: bool)
    requires forall i, j :: 0 <= i < j < |t| ==> Membership(t[i]) != Membership(t[j])
    ensures Members(t, b) <= 1
  {
    if t != [] {
      var rest := t[1..];
      assert forall i, j :: 0 <= i < j < |rest| ==> Membership(rest[i]) != Membership(rest[j]) by {
        forall i, j | 0 <= i < j < |rest| ensures Membership(rest[i]) != Membership(rest[j]) {
          assert rest[i] == t[i + 1] && rest[j] == t[j + 1];
        }
      }
      if Membership(t[0]) == b {
        forall i | 0 <= i < |rest| ensures Membership(rest[i]) != b {
          assert rest[i] == t[i + 1];
        }
        MembersNone(rest, b);
      } else {
        MembersAtMostOne(rest, b);
      }
    }
  }

  /** The row `x` holds the figures of exactly the rows of `c` whose
      membership its label names, of which there is at least one. */
  predicate Summarizes(x: PrimeRow, c: seq<Row>) {
    var m := Where(c, IsPrime, x.prime);
    && m != []
    && x.revenue == Sum(m, Revenue) && x.profit == Sum(m, Profit)
    && x.orders == NUnique(m, OrderId) && x.customers == NUnique(m, Customer)
    && x.units == SumInt(m, Units)
    && x.avgOrderValue == Fraction(x.revenue, |m| as real)
    && x.ordersPerCustomer == Fraction(x.orders as real, x.customers as real)
    && x.revenuePerCustomer == Fraction(x.revenue, x.customers as real)
  }

  /** Before sorting, each row summarises the group it was built from. */
  lemma {:induction false} SummariesOfGroups(c: seq<Row>, gs: seq<Group<bool, Row>>)
    requires forall j :: 0 <= j < |gs| ==> gs[j].rows == Where(c, IsPrime, gs[j].key) && gs[j].rows != []
    ensures var w := Column(gs, Summary);
      forall j :: 0 <= j < |w| ==> Summarizes(w[j], c) && Membership(w[j]) == gs[j].key
  {
    var w := Column(gs, Summary);
    forall j | 0 <= j < |w| ensures Summarizes(w[j], c) && Membership(w[j]) == gs[j].key {
      assert w[j] == Summary(gs[j]);
    }
  }

  /** Built from the groups of `c`, each row of the table summarises its own
      membership. */
  lemma {:induction false} TableSummarizes(c: seq<Row>, gs: seq<Group<bool, Row>>)
    requires forall j :: 0 <= j < |gs| ==> gs[j].rows == Where(c, IsPrime, gs[j].key) && gs[j].rows != []
    requires forall i, j :: 0 <= i < j < |gs| ==> gs[i].key != gs[j].key
    ensures var t := PrimeTable(gs);
      forall i :: 0 <= i < |t| ==> Summarizes(t[i], c)
  {
    SummariesOfGroups(c, gs);
    SortedSummaries([], IsPrime, gs, Column(gs, Summary), PrimeTable(gs), Membership, x => Summarizes(x, c));
  }

  /** Built from the groups of `c`, the table has no membership twice and
      one row for each membership in `c`. */
  lemma {:induction false} TableKeys(c: seq<Row>, gs: seq<Group<bool, Row>>)
    requires forall i, j :: 0 <= i < j < |gs| ==> gs[i].key != gs[j].key
    requires forall x :: x in c ==> exists j :: 0 <= j < |gs| && gs[j].key == IsPrime(x)
    ensures var t := PrimeTable(gs);
      && (forall i, j :: 0 <= i < j < |t| ==> Membership(t[i]) != Membership(t[j]))
      && (forall x :: x in c ==> exists i :: 0 <= i < |t| && Membership(t[i]) == IsPrime(x))
  {
    var w := Column(gs, Summary);
    forall j | 0 <= j < |w| ensures Membership(w[j]) == gs[j].key {
      assert w[j] == Summary(gs[j]);
    }
    SortedSummaries(c, IsPrime, gs, w, PrimeTable(gs), Membership, _ => true);
  }

  /** Each row summarises the completed rows of its membership. */
  lemma {:induction false} PrimeGroups(rows: seq<Row>)
    ensures var t := PrimeAnalysis(rows);
      forall i :: 0 <= i < |t| ==> Summarizes(t[i], Completed(rows))
  {
    var c := Completed(rows);
    TableSummarizes(c, GroupBy(c, IsPrime));
  }

  /** No membership has two rows, and a membership with a completed order
      has its row. */
  lemma {:induction false} PrimeKeys(rows: seq<Row>)
    ensures var t := PrimeAnalysis(rows);
      && (forall i, j :: 0 <= i < j < |t| ==> Membership(t[i]) != Membership(t[j]))
      && (forall x :: x in Completed(rows) ==> exists i :: 0 <= i < |t| && Membership(t[i]) == IsPrime(x))
  {
    var c := Completed(rows);
    GroupsCover(c, IsPrime);
    TableKeys(c, GroupBy(c, IsPrime));
  }

  /** Every ratio of a row is defined, since a group has at least one row,
      one order and one customer, and multiplied back by its count each
      gives its numerator. */
  lemma {:induction false} PrimeRatios(x: PrimeRow, n: nat)
    requires n >= 1 && x.customers >= 1
    requires x.avgOrderValue == Fraction(x.revenue, n as real)
    requires x.ordersPerCustomer == Fraction(x.orders as real, x.customers as real)
    requires x.revenuePerCustomer == Fraction(x.revenue, x.customers as real)
    ensures Defined(x.avgOrderValue) && Defined(x.ordersPerCustomer) && Defined(x.revenuePerCustomer)
    ensures Value(x.avgOrderValue).value * n as real == x.revenue
    ensures Value(x.ordersPerCustomer).value * x.customers as real == x.orders as real
    ensures Value(x.revenuePerCustomer).value * x.customers as real == x.revenue
  {
    RatioOfCount(x.avgOrderValue, x.revenue, n);
    RatioOfCount(x.ordersPerCustomer, x.orders as real, x.customers);
    RatioOfCount(x.revenuePerCustomer, x.revenue, x.customers);
  }

  /** A row's group has at least one row and one customer. */
  lemma {:induction false} PrimeCounts(x: PrimeRow, c: seq<Row>)
    requires Summarizes(x, c)
    ensures x.customers >= 1 && |Where(c, IsPrime, x.prime)| >= 1
  {
  }

  /** Splitting by membership neither loses nor adds revenue or profit. */
  lemma {:induction false} PrimeTotals(rows: seq<Row>)
    ensures var t := PrimeAnalysis(rows);
      && Sum(t, PrimeRevenue) == Sum(Completed(rows), Revenue)
      && Sum(t, PrimeProfit) == Sum(Completed(rows), Profit)
  {
    var c := Completed(rows);
    var gs := GroupBy(c, IsPrime);
    var w := Column(gs, Summary);
    var t := PrimeTable(gs);
    forall j | 0 <= j < |w|
      ensures PrimeRevenue(w[j]) == Sum(gs[j].rows, Revenue)
      ensures PrimeProfit(w[j]) == Sum(gs[j].rows, Profit)
    {
      assert w[j] == Summary(gs[j]);
    }
    SumPerGroup(gs, Revenue, w, PrimeRevenue);
    SumPerGroup(gs, Profit, w, PrimeProfit);
    SumPermutation(w, t, PrimeRevenue);
    SumPermutation(w, t, PrimeProfit);
    GroupByPreservesSum(c, IsPrime, Revenue);
    GroupByPreservesSum(c, IsPrime, Profit);
  }

  /** The table depends on the completed orders only. */
  lemma {:induction false} PrimeIgnoresOtherStatuses(a: seq<Row>, r: Row, b: seq<Row>)
    requires r.status != COMPLETED
    ensures PrimeAnalysis(a + [r] + b) == PrimeAnalysis(a + b)
  {
    OtherStatusIgnored(a, r, b);
  }
}
