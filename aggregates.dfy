/** Column operations of a data frame, stated over sequences: sums, counts,
    distinct counts, row selection and group-by. A frame is a `seq` of rows
    and a column is a function from a row to its value. */
module Aggregates {

  datatype Option<T> = None | Some(value: T)

  /** A ratio column, kept exact as a numerator over a denominator. pandas
      divides in floating point, and a zero denominator gives NaN or an
      infinity: such a ratio is not `Defined` here. */
  datatype Fraction = Fraction(numerator: real, denominator: real)

  predicate Defined(q: Fraction) {
    q.denominator != 0.0
  }

  /** The number a defined ratio stands for. */
  function Value(q: Fraction): (v: Option<real>)
    ensures v.Some? <==> Defined(q)
  {
    if q.denominator == 0.0 then None else Some(q.numerator / q.denominator)
  }

  /** The value, with an undefined ratio read as 0 (`fillna(0)`, and what
      `cumsum` adds for a NaN). */
  function ValueOrZero(q: Fraction): real {
    if q.denominator == 0.0 then 0.0 else q.numerator / q.denominator
  }

  lemma ValueTimesDenominator(q: Fraction)
    requires Defined(q)
    ensures Value(q).value * q.denominator == q.numerator
    ensures ValueOrZero(q) == Value(q).value
  {
  }

  /** The values of one column, in row order. */
  function Column<T, V>(s: seq<T>, f: T -> V): seq<V> {
    seq(|s|, i requires 0 <= i < |s| => f(s[i]))
  }

  /** `sum()` of a numeric column. */
  function Sum<T>(s: seq<T>, f: T -> real): real {
    if s == [] then 0.0 else f(s[0]) + Sum(s[1..], f)
  }

  /** `sum()` of an integer column. */
  function SumInt<T>(s: seq<T>, f: T -> int): int {
    if s == [] then 0 else f(s[0]) + SumInt(s[1..], f)
  }

  /** `sum()` of a boolean column: the number of rows where it holds. */
  function Count<T>(s: seq<T>, p: T -> bool): (n: nat)
    ensures n <= |s|
  {
    if s == [] then 0 else (if p(s[0]) then 1 else 0) + Count(s[1..], p)
  }

  /** `part / whole * 100`. */
  function Percent(part: real, whole: real): (p: Fraction)
    ensures Defined(p) <==> whole != 0.0
  {
    Fraction(part * 100.0, whole)
  }

  /** `mean()` of a column: the mean of no rows is NaN. */
  function Mean<T>(s: seq<T>, f: T -> real): (m: Fraction)
    ensures Defined(m) <==> s != []
  {
    Fraction(Sum(s, f), |s| as real)
  }

  /** `mean() * 100` of a boolean column: the percentage of rows where it holds. */
  function PercentTrue<T>(s: seq<T>, p: T -> bool): (m: Fraction)
    ensures Defined(m) <==> s != []
  {
    Percent(Count(s, p) as real, |s| as real)
  }

  /** A percentage of `k` out of `n` things is `k` per hundred of `n`, lies in
      [0, 100], and so does what it leaves of 100. */
  lemma {:induction false} RateOfCount(q: Fraction, k: nat, n: nat)
    requires 1 <= n && k <= n && q == Percent(k as real, n as real)
    ensures Defined(q) && Value(q).value * n as real == k as real * 100.0
    ensures 0.0 <= Value(q).value <= 100.0
    ensures Defined(Complement(q)) && Value(Complement(q)).value == 100.0 - Value(q).value
  {
    PercentTimesWhole(k as real, n as real);
    PercentOfPart(k as real, n as real);
    ComplementValue(q);
  }

  /** `100 - q` for a percentage `q`, undefined where `q` is. */
  function Complement(q: Fraction): (c: Fraction)
    ensures Defined(c) <==> Defined(q)
  {
    Fraction(100.0 * q.denominator - q.numerator, q.denominator)
  }

  lemma ComplementValue(q: Fraction)
    requires Defined(q)
    ensures Value(Complement(q)).value == 100.0 - Value(q).value
  {
    var d := q.denominator;
    var v := q.numerator / d;
    var c := (100.0 * d - q.numerator) / d;
    assert v * d == q.numerator;
    assert c * d == 100.0 * d - q.numerator;
    assert (100.0 - v) * d == 100.0 * d - q.numerator;
    var e := 100.0 * d - q.numerator;
    assert c * d == e && (100.0 - v) * d == e;
    CancelFactor(c, 100.0 - v, d);
  }

  lemma CancelFactor(x: real, y: real, d: real)
    requires d != 0.0 && x * d == y * d
    ensures x == y
  {
  }

  /** A total over a positive count is defined, and the count times it gives
      the total back. */
  lemma RatioOfCount(q: Fraction, total: real, n: nat)
    requires n >= 1 && q == Fraction(total, n as real)
    ensures Defined(q) && Value(q).value * n as real == total
  {
  }

  /** A percentage of a whole is the part again once multiplied back. */
  lemma PercentTimesWhole(part: real, whole: real)
    requires whole != 0.0
    ensures Value(Percent(part, whole)).value * whole == part * 100.0
  {
  }

  /** The percentage that a part of a positive whole makes lies in [0, 100]. */
  lemma PercentOfPart(part: real, whole: real)
    requires 0.0 <= part <= whole && whole > 0.0
    ensures 0.0 <= Value(Percent(part, whole)).value <= 100.0
  {
    assert part / whole <= 1.0;
  }

  lemma MeanTimesCount<T>(s: seq<T>, f: T -> real)
    requires s != []
    ensures Value(Mean(s, f)).value * |s| as real == Sum(s, f)
  {
  }

  /** Boolean mask selection `df[df[key] == k]`: every matching row, as
      often as it occurs (`WhereMultiset`), and nothing else. Row order is
      kept, which `WhereConcat` states. */
  function Where<T, K(==)>(s: seq<T>, key: T -> K, k: K): (w: seq<T>)
    ensures |w| <= |s|
    ensures forall i :: 0 <= i < |w| ==> w[i] in s && key(w[i]) == k
    ensures forall j :: 0 <= j < |s| && key(s[j]) == k ==> s[j] in w
  {
    if s == [] then []
    else
      (if key(s[0]) == k then [s[0]] else []) + Where(s[1..], key, k)
  }

  /** A selection keeps each matching row exactly as often as it occurs,
      and no other row. */
  lemma {:induction false} WhereMultiset<T, K>(s: seq<T>, key: T -> K, k: K)
    ensures forall x :: multiset(Where(s, key, k))[x] == if key(x) == k then multiset(s)[x] else 0
  {
    if s != [] {
      WhereMultiset(s[1..], key, k);
      assert s == [s[0]] + s[1..];
    }
  }

  predicate NoDuplicates<K(==)>(s: seq<K>) {
    forall i, j :: 0 <= i < j < |s| ==> s[i] != s[j]
  }

  /** The distinct values of `s` in order of first appearance. */
  function Distinct<K(==)>(s: seq<K>): (d: seq<K>)
    ensures NoDuplicates(d)
    ensures forall i :: 0 <= i < |d| ==> d[i] in s
    ensures forall j :: 0 <= j < |s| ==> s[j] in d
    ensures |d| <= |s|
  {
    if s == [] then []
    else
      var front := s[..|s| - 1];
      assert s == front + [s[|s| - 1]];
      var d := Distinct(front);
      if s[|s| - 1] in d then d else d + [s[|s| - 1]]
  }

  /** `nunique()` of a column. */
  function NUnique<T, K(==)>(s: seq<T>, f: T -> K): (n: nat)
    ensures n <= |s|
    ensures s != [] ==> n >= 1
  {
    var d := Distinct(Column(s, f));
    assert s != [] ==> Column(s, f)[0] in d;
    |d|
  }

  /** One group of a `groupby`: its key and the rows that carry it. */
  datatype Group<K, T> = Group(key: K, rows: seq<T>)

  function GroupsFor<T, K(==)>(s: seq<T>, key: T -> K, ks: seq<K>): (gs: seq<Group<K, T>>)
    ensures |gs| == |ks|
    ensures forall i :: 0 <= i < |ks| ==> gs[i] == Group(ks[i], Where(s, key, ks[i]))
  {
    if ks == [] then [] else [Group(ks[0], Where(s, key, ks[0]))] + GroupsFor(s, key, ks[1..])
  }

  /** `groupby(key)`: one group per distinct key value, each holding exactly
      the rows with that key. Groups come in order of first appearance. */
  function GroupBy<T, K(==)>(s: seq<T>, key: T -> K): (gs: seq<Group<K, T>>)
    ensures |gs| == NUnique(s, key)
    ensures forall i :: 0 <= i < |gs| ==> gs[i].rows == Where(s, key, gs[i].key) && gs[i].rows != []
    ensures forall i, j :: 0 <= i < j < |gs| ==> gs[i].key != gs[j].key
    ensures forall j :: 0 <= j < |s| ==> exists i :: 0 <= i < |gs| && gs[i].key == key(s[j])
  {
    var ks := Distinct(Column(s, key));
    GroupsCoverRows(s, key, ks);
    GroupsFor(s, key, ks)
  }

  lemma {:induction false} GroupsCoverRows<T, K>(s: seq<T>, key: T -> K, ks: seq<K>)
    requires ks == Distinct(Column(s, key))
    ensures forall i :: 0 <= i < |ks| ==> Where(s, key, ks[i]) != []
    ensures forall j :: 0 <= j < |s| ==> exists i :: 0 <= i < |ks| && ks[i] == key(s[j])
  {
    var c := Column(s, key);
    forall i | 0 <= i < |ks| ensures Where(s, key, ks[i]) != [] {
      var k := ks[i];
      assert k in c;
      var j :| 0 <= j < |c| && c[j] == k;
      assert key(s[j]) == k;
      assert s[j] in Where(s, key, k);
    }
    forall j | 0 <= j < |s| ensures exists i :: 0 <= i < |ks| && ks[i] == key(s[j]) {
      assert c[j] == key(s[j]);
      assert key(s[j]) in ks;
    }
  }

  /** Every row's key has its group. */
  lemma {:induction false} GroupsCover<T, K>(s: seq<T>, key: T -> K)
    ensures forall x :: x in s ==> exists i :: 0 <= i < |GroupBy(s, key)| && GroupBy(s, key)[i].key == key(x)
  {
    var gs := GroupBy(s, key);
    forall x | x in s ensures exists i :: 0 <= i < |gs| && gs[i].key == key(x) {
      var j :| 0 <= j < |s| && s[j] == x;
    }
  }

  /** The sum of column `f` over every group, group by group. */
  function SumOverGroups<K, T>(gs: seq<Group<K, T>>, f: T -> real): real {
    if gs == [] then 0.0 else Sum(gs[0].rows, f) + SumOverGroups(gs[1..], f)
  }

  /** The column total of one group. */
  function GroupTotal<K, T>(f: T -> real): Group<K, T> -> real {
    (g: Group<K, T>) => Sum(g.rows, f)
  }

  lemma {:induction false} SumOverGroupsAsSum<K, T>(gs: seq<Group<K, T>>, f: T -> real)
    ensures SumOverGroups(gs, f) == Sum(gs, GroupTotal(f))
  {
    if gs != [] {
      SumOverGroupsAsSum(gs[1..], f);
    }
  }

  lemma {:induction false} SumOverEmptyGroups<T, K>(key: T -> K, ks: seq<K>, f: T -> real)
    ensures SumOverGroups(GroupsFor([], key, ks), f) == 0.0
  {
    if ks != [] {
      SumOverEmptyGroups(key, ks[1..], f);
    }
  }

  /** Selecting from a table with one more row in front adds that row's
      value to the selection's total exactly when its key matches. */
  lemma {:induction false} SumWhereCons<T, K>(x: T, rest: seq<T>, key: T -> K, k: K, f: T -> real)
    ensures Sum(Where([x] + rest, key, k), f) == (if key(x) == k then f(x) else 0.0) + Sum(Where(rest, key, k), f)
  {
    var s := [x] + rest;
    assert s[0] == x && s[1..] == rest;
    var w := Where(rest, key, k);
    assert Where(s, key, k) == (if key(x) == k then [x] else []) + w;
    if key(x) == k {
      assert ([x] + w)[1..] == w;
    } else {
      assert [] + w == w;
    }
  }

  /** Dropping the first key keeps a key list free of duplicates, and the
      first key does not occur among the others. */
  lemma {:induction false} NoDuplicatesTail<K>(ks: seq<K>)
    requires ks != [] && NoDuplicates(ks)
    ensures NoDuplicates(ks[1..]) && ks[0] !in ks[1..]
  {
    var t := ks[1..];
    forall i, j | 0 <= i < j < |t| ensures t[i] != t[j] {
      assert t[i] == ks[i + 1] && t[j] == ks[j + 1];
    }
    forall j | 0 <= j < |t| ensures t[j] != ks[0] {
      assert t[j] == ks[j + 1];
    }
  }

  /** Adding one row in front of the frame adds its value to exactly the
      group of its key, when the keys are distinct. */
  lemma {:induction false} SumOverGroupsCons<T, K>(x: T, rest: seq<T>, key: T -> K, ks: seq<K>, f: T -> real)
    requires NoDuplicates(ks)
    ensures SumOverGroups(GroupsFor([x] + rest, key, ks), f)
         == (if key(x) in ks then f(x) else 0.0) + SumOverGroups(GroupsFor(rest, key, ks), f)
  {
    if ks != [] {
      var s := [x] + rest;
      var k := ks[0];
      SumWhereCons(x, rest, key, k, f);
      var gs := GroupsFor(s, key, ks);
      var hs := GroupsFor(rest, key, ks);
      assert gs[1..] == GroupsFor(s, key, ks[1..]);
      assert hs[1..] == GroupsFor(rest, key, ks[1..]);
      assert gs[0].rows == Where(s, key, k) && hs[0].rows == Where(rest, key, k);
      assert SumOverGroups(gs, f) == Sum(Where(s, key, k), f) + SumOverGroups(gs[1..], f);
      assert SumOverGroups(hs, f) == Sum(Where(rest, key, k), f) + SumOverGroups(hs[1..], f);
      assert key(x) in ks <==> key(x) == k || key(x) in ks[1..];
      NoDuplicatesTail(ks);
      SumOverGroupsCons(x, rest, key, ks[1..], f);
    }
  }

  lemma {:induction false} SumOverGroupsFor<T, K>(s: seq<T>, key: T -> K, ks: seq<K>, f: T -> real)
    requires NoDuplicates(ks)
    requires forall x :: x in s ==> key(x) in ks
    ensures SumOverGroups(GroupsFor(s, key, ks), f) == Sum(s, f)
  {
    if s == [] {
      SumOverEmptyGroups(key, ks, f);
    } else {
      assert s == [s[0]] + s[1..];
      SumOverGroupsCons(s[0], s[1..], key, ks, f);
      SumOverGroupsFor(s[1..], key, ks, f);
    }
  }

  /** Grouping loses and duplicates nothing: the group totals of any column
      add up to the column's total. */
  lemma {:induction false} GroupByPreservesSum<T, K>(s: seq<T>, key: T -> K, f: T -> real)
    ensures SumOverGroups(GroupBy(s, key), f) == Sum(s, f)
  {
    var ks := Distinct(Column(s, key));
    forall x | x in s ensures key(x) in ks {
      var j :| 0 <= j < |s| && s[j] == x;
      assert Column(s, key)[j] == key(x);
    }
    SumOverGroupsFor(s, key, ks, f);
  }

  /** A table with one value per group, summed, equals the sum over the groups. */
  lemma {:induction false} SumPerGroup<K, T, R>(gs: seq<Group<K, T>>, f: T -> real, t: seq<R>, g: R -> real)
    requires |t| == |gs|
    requires forall i :: 0 <= i < |t| ==> g(t[i]) == Sum(gs[i].rows, f)
    ensures Sum(t, g) == SumOverGroups(gs, f)
  {
    if t != [] {
      SumPerGroup(gs[1..], f, t[1..], g);
    }
  }

  lemma {:induction false} SumPointwise<A, B>(s: seq<A>, f: A -> real, t: seq<B>, g: B -> real)
    requires |s| == |t|
    requires forall i :: 0 <= i < |s| ==> f(s[i]) == g(t[i])
    ensures Sum(s, f) == Sum(t, g)
  {
    if s != [] {
      SumPointwise(s[1..], f, t[1..], g);
    }
  }

  lemma {:induction false} SumIntAsReal<T>(s: seq<T>, f: T -> int, g: T -> real)
    requires forall x :: x in s ==> g(x) == f(x) as real
    ensures SumInt(s, f) as real == Sum(s, g)
  {
    if s != [] {
      SumIntAsReal(s[1..], f, g);
    }
  }

  lemma {:induction false} SumConcat<T>(a: seq<T>, b: seq<T>, f: T -> real)
    ensures Sum(a + b, f) == Sum(a, f) + Sum(b, f)
  {
    if a == [] {
      assert a + b == b;
    } else {
      assert (a + b)[0] == a[0] && (a + b)[1..] == a[1..] + b;
      SumConcat(a[1..], b, f);
      calc {
        Sum(a + b, f);
        f(a[0]) + Sum(a[1..] + b, f);
        f(a[0]) + Sum(a[1..], f) + Sum(b, f);
      }
    }
  }

  /** Reordering the rows does not change a column's total. */
  lemma {:induction false} SumPermutation<T>(a: seq<T>, b: seq<T>, f: T -> real)
    requires multiset(a) == multiset(b)
    ensures Sum(a, f) == Sum(b, f)
  {
    if a != [] {
      assert a[0] in multiset(b);
      var j :| 0 <= j < |b| && b[j] == a[0];
      var rest := b[..j] + b[j + 1..];
      RemoveOne(a, b, j);
      SumPermutation(a[1..], rest, f);
      SumRemove(b, j, f);
    }
  }

  lemma {:induction false} RemoveOne<T>(a: seq<T>, b: seq<T>, j: int)
    requires a != [] && 0 <= j < |b| && b[j] == a[0]
    requires multiset(a) == multiset(b)
    ensures multiset(a[1..]) == multiset(b[..j] + b[j + 1..])
  {
    assert b == b[..j] + [b[j]] + b[j + 1..];
    assert a == [a[0]] + a[1..];
    assert multiset(b) == multiset(b[..j]) + multiset{b[j]} + multiset(b[j + 1..]);
    assert multiset(a) == multiset{a[0]} + multiset(a[1..]);
    assert multiset(b[..j] + b[j + 1..]) == multiset(b[..j]) + multiset(b[j + 1..]);
    assert multiset(a[1..]) == multiset(a) - multiset{a[0]};
    assert multiset(b[..j] + b[j + 1..]) == multiset(b) - multiset{b[j]};
  }

  lemma {:induction false} SumRemove<T>(b: seq<T>, j: int, f: T -> real)
    requires 0 <= j < |b|
    ensures Sum(b, f) == f(b[j]) + Sum(b[..j] + b[j + 1..], f)
  {
    assert b == b[..j] + [b[j]] + b[j + 1..];
    SumConcat(b[..j] + [b[j]], b[j + 1..], f);
    SumConcat(b[..j], [b[j]], f);
    SumConcat(b[..j], b[j + 1..], f);
  }

  lemma {:induction false} SumScaled<T>(s: seq<T>, f: T -> real, g: T -> real, k: real)
    requires forall i :: 0 <= i < |s| ==> g(s[i]) == f(s[i]) * k
    ensures Sum(s, g) == Sum(s, f) * k
  {
    if s != [] {
      SumScaled(s[1..], f, g, k);
      assert g(s[0]) + Sum(s[1..], f) * k == (f(s[0]) + Sum(s[1..], f)) * k;
    }
  }

  /** Each value taken as a percentage of the column total: the percentages
      add up to exactly 100. */
  lemma {:induction false} PercentsSumTo100<T>(s: seq<T>, f: T -> real, g: T -> real)
    requires Sum(s, f) != 0.0
    requires forall i :: 0 <= i < |s| ==> g(s[i]) == f(s[i]) / Sum(s, f) * 100.0
    ensures Sum(s, g) == 100.0
  {
    var t := Sum(s, f);
    var k := 100.0 / t;
    forall i | 0 <= i < |s| ensures g(s[i]) == f(s[i]) * k {
      assert f(s[i]) / t * 100.0 == f(s[i]) * (100.0 / t);
    }
    SumScaled(s, f, g, k);
    assert t * (100.0 / t) == 100.0;
  }

  /** Each value as a percentage of the column mean: the results add up to
      100 per row, so their mean is 100. */
  lemma {:induction false} IndexSumsTo100PerRow<T>(s: seq<T>, f: T -> real, index: T -> real)
    requires Sum(s, f) != 0.0
    requires forall i :: 0 <= i < |s| ==> index(s[i]) == ValueOrZero(Percent(f(s[i]) * |s| as real, Sum(s, f)))
    ensures Sum(s, index) == 100.0 * |s| as real
  {
    var t := Sum(s, f);
    var k := 100.0 * (|s| as real) / t;
    IndexIsScaled(s, f, index, |s| as real, t, k);
    SumScaled(s, f, index, k);
    MulDivCancel(t, 100.0 * (|s| as real));
  }

  lemma {:induction false} IndexIsScaled<T>(s: seq<T>, f: T -> real, index: T -> real, n: real, t: real, k: real)
    requires t != 0.0 && k == 100.0 * n / t
    requires forall i :: 0 <= i < |s| ==> index(s[i]) == ValueOrZero(Percent(f(s[i]) * n, t))
    ensures forall i :: 0 <= i < |s| ==> index(s[i]) == f(s[i]) * k
  {
    forall i | 0 <= i < |s| ensures index(s[i]) == f(s[i]) * k {
      ScaledPercent(index(s[i]), f(s[i]), n, t, k);
    }
  }

  lemma MulDivCancel(t: real, x: real)
    requires t != 0.0
    ensures t * (x / t) == x
  {
  }

  lemma ScaledPercent(v: real, a: real, n: real, t: real, k: real)
    requires t != 0.0 && k == 100.0 * n / t
    requires v == ValueOrZero(Percent(a * n, t))
    ensures v == a * k
  {
    assert a * n * 100.0 / t == a * (100.0 * n / t);
  }

  /** The same, for a share column that reads an undefined percentage as 0. */
  lemma {:induction false} SharesSumTo100<T>(s: seq<T>, f: T -> real, share: T -> real)
    requires Sum(s, f) != 0.0
    requires forall i :: 0 <= i < |s| ==> share(s[i]) == ValueOrZero(Percent(f(s[i]), Sum(s, f)))
    ensures Sum(s, share) == 100.0
  {
    PercentsSumTo100(s, f, share);
  }

  lemma PercentNonNegative(part: real, whole: real)
    requires part >= 0.0 && whole > 0.0
    ensures ValueOrZero(Percent(part, whole)) >= 0.0
  {
  }

  lemma {:induction false} WhereConcat<T, K>(a: seq<T>, b: seq<T>, key: T -> K, k: K)
    ensures Where(a + b, key, k) == Where(a, key, k) + Where(b, key, k)
  {
    if a == [] {
      assert a + b == b;
    } else {
      assert (a + b)[0] == a[0] && (a + b)[1..] == a[1..] + b;
      WhereConcat(a[1..], b, key, k);
      var head := if key(a[0]) == k then [a[0]] else [];
      calc {
        Where(a + b, key, k);
        head + Where(a[1..] + b, key, k);
        head + (Where(a[1..], key, k) + Where(b, key, k));
        (head + Where(a[1..], key, k)) + Where(b, key, k);
      }
    }
  }

  lemma SumNonNegative<T>(s: seq<T>, f: T -> real)
    requires forall x :: x in s ==> f(x) >= 0.0
    ensures Sum(s, f) >= 0.0
  {
    if s != [] {
      assert forall x :: x in s[1..] ==> x in s;
      SumNonNegative(s[1..], f);
    }
  }

  /** A column whose every value is at least 1 sums to at least the row count. */
  lemma {:induction false} SumAtLeastCount<T>(s: seq<T>, f: T -> real)
    requires forall i :: 0 <= i < |s| ==> f(s[i]) >= 1.0
    ensures Sum(s, f) >= |s| as real
  {
    if s != [] {
      SumAtLeastCount(s[1..], f);
    }
  }
}
