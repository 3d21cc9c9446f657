/** Window operations over one numeric column: `pct_change`, a trailing
    `rolling(window=3).mean()` and `cumsum`, each written as a single scan
    that carries the state it needs from one row to the next, and each tied
    by its contract to the closed formula for every position. */
module Windows {
  import opened Aggregates

  function Id(x: real): real { x }

  /** `sum()` of a column of numbers. */
  function Total(xs: seq<real>): real {
    Sum(xs, Id)
  }

  /** One step of `pct_change() * 100` followed by `fillna(0)`: the growth
      from `prev` to `cur` in percent. When `prev` is zero, 0/0 is NaN, which
      the fill turns into 0, and a nonzero change is an infinity, which it
      leaves alone (undefined). */
  function Growth(prev: real, cur: real): (g: Fraction)
    ensures Defined(g) <==> prev != 0.0 || cur == 0.0
    ensures prev == 0.0 && cur == 0.0 ==> Value(g) == Some(0.0)
  {
    if prev == 0.0 && cur == 0.0 then NO_GROWTH else Percent(cur - prev, prev)
  }

  /** Growth is the inverse of compounding: applying the growth rate to the
      earlier value gives the later one, and over a positive earlier value
      the rate is positive exactly when the value rose. */
  lemma GrowthCompounds(prev: real, cur: real)
    requires prev != 0.0
    ensures cur == prev * (1.0 + Value(Growth(prev, cur)).value / 100.0)
    ensures prev > 0.0 ==> (Value(Growth(prev, cur)).value > 0.0 <==> cur > prev)
  {
  }

  function GrowthAfter(prev: real, rest: seq<real>): (gs: seq<Fraction>)
    ensures |gs| == |rest|
    ensures |rest| > 0 ==> gs[0] == Growth(prev, rest[0])
    ensures forall i {:trigger gs[i]} :: 1 <= i < |rest| ==> gs[i] == Growth(rest[i - 1], rest[i])
    decreases |rest|
  {
    if rest == [] then []
    else [Growth(prev, rest[0])] + GrowthAfter(rest[0], rest[1..])
  }

  /** The first month of a growth column: it has no predecessor, and the NaN
      there is filled with 0. */
  const NO_GROWTH: Fraction := Fraction(0.0, 1.0)

  /** The `revenue_growth` column: 0 for the first row and, for every later
      row, the growth from the row before. */
  function GrowthSeries(xs: seq<real>): (gs: seq<Fraction>)
    ensures |gs| == |xs|
    ensures |xs| > 0 ==> gs[0] == NO_GROWTH
    ensures forall i {:trigger gs[i]} :: 1 <= i < |xs| ==> gs[i] == Growth(xs[i - 1], xs[i])
  {
    if xs == [] then [] else [NO_GROWTH] + GrowthAfter(xs[0], xs[1..])
  }

  /** The trailing window after one more value: at most the last two values. */
  function Slide(window: seq<real>, x: real): (w: seq<real>)
    requires |window| <= 2
    ensures |w| == if |window| < 2 then |window| + 1 else 2
    ensures w == (window + [x])[|window| + 1 - |w|..]
  {
    if |window| < 2 then window + [x] else [window[1], x]
  }

  /** The mean over `window` and the next value, or the value itself while
      fewer than two earlier values exist (`rolling(3).mean()` is NaN there
      and `fillna(revenue)` puts the value back). */
  function RollFrom(window: seq<real>, rest: seq<real>): (ms: seq<real>)
    requires |window| <= 2
    ensures |ms| == |rest|
    ensures forall i {:trigger ms[i]} :: 0 <= i < |rest| ==>
      var full := window + rest;
      var p := |window| + i;
      ms[i] == if p < 2 then rest[i] else (full[p - 2] + full[p - 1] + full[p]) / 3.0
    decreases |rest|
  {
    if rest == [] then []
    else
      var m := if |window| < 2 then rest[0] else (window[0] + window[1] + rest[0]) / 3.0;
      var w := Slide(window, rest[0]);
      var ms := RollFrom(w, rest[1..]);
      RollFromShift(window, rest, w);
      [m] + ms
  }

  lemma {:induction false} RollFromShift(window: seq<real>, rest: seq<real>, w: seq<real>)
    requires |window| <= 2 && rest != [] && w == Slide(window, rest[0])
    ensures w + rest[1..] == (window + rest)[|window| + 1 - |w|..]
  {
    var d := |window| + 1 - |w|;
    assert window + rest == (window + [rest[0]]) + rest[1..];
    assert w == (window + [rest[0]])[d..];
  }

  /** The `revenue_ma3` column. */
  function RollingMean3(xs: seq<real>): (ms: seq<real>)
    ensures |ms| == |xs|
    ensures forall i {:trigger ms[i]} :: 0 <= i < |xs| ==>
      ms[i] == if i < 2 then xs[i] else (xs[i - 2] + xs[i - 1] + xs[i]) / 3.0
  {
    assert [] + xs == xs;
    RollFrom([], xs)
  }

  /** `cumsum()` continued from an earlier running total `acc`. */
  function CumFrom(acc: real, xs: seq<real>): (cs: seq<real>)
    ensures |cs| == |xs|
    ensures forall i :: 0 <= i < |xs| ==> cs[i] == acc + Total(xs[..i + 1])
    decreases |xs|
  {
    if xs == [] then []
    else
      var cs := CumFrom(acc + xs[0], xs[1..]);
      TotalPrefixes(xs);
      assert Total(xs[1..][..0]) == 0.0 by { assert xs[1..][..0] == []; }
      [acc + xs[0]] + cs
  }

  lemma {:induction false} TotalPrefixes(xs: seq<real>)
    requires xs != []
    ensures forall i :: 0 <= i < |xs| ==> Total(xs[..i + 1]) == xs[0] + Total(xs[1..][..i])
  {
    forall i | 0 <= i < |xs| ensures Total(xs[..i + 1]) == xs[0] + Total(xs[1..][..i]) {
      var p := xs[..i + 1];
      assert p[0] == xs[0] && p[1..] == xs[1..][..i];
    }
  }

  /** The `cumsum()` column: each entry is the total of the values up to and
      including its own. */
  function CumSum(xs: seq<real>): (cs: seq<real>)
    ensures |cs| == |xs|
    ensures forall i :: 0 <= i < |xs| ==> cs[i] == Total(xs[..i + 1])
  {
    var cs := CumFrom(0.0, xs);
    cs
  }

  /** Differencing the running total gives back the values. */
  lemma CumSumSteps(xs: seq<real>)
    ensures xs != [] ==> CumSum(xs)[0] == xs[0]
    ensures forall i :: 1 <= i < |xs| ==> CumSum(xs)[i] - CumSum(xs)[i - 1] == xs[i]
  {
    forall i | 1 <= i < |xs| ensures CumSum(xs)[i] - CumSum(xs)[i - 1] == xs[i] {
      assert xs[..i + 1] == xs[..i] + [xs[i]];
      SumConcat(xs[..i], [xs[i]], Id);
    }
    if xs != [] {
      assert xs[..1] == [xs[0]];
    }
  }

  /** The last running total is the column total. */
  lemma CumSumLast(xs: seq<real>)
    requires xs != []
    ensures CumSum(xs)[|xs| - 1] == Total(xs)
  {
    assert xs[..|xs|] == xs;
  }

  /** Over non-negative values the running total never decreases. */
  lemma CumSumMonotone(xs: seq<real>)
    requires forall i :: 0 <= i < |xs| ==> xs[i] >= 0.0
    ensures forall i, j :: 0 <= i <= j < |xs| ==> CumSum(xs)[i] <= CumSum(xs)[j]
  {
    var cs := CumSum(xs);
    CumSumSteps(xs);
    forall i, j | 0 <= i <= j < |xs| ensures cs[i] <= cs[j] {
      var k := i;
      while k < j
        invariant i <= k <= j
        invariant cs[i] <= cs[k]
      {
        k := k + 1;
      }
    }
  }

  /** The total of a column taken out of a frame is the frame's column sum. */
  lemma {:induction false} TotalOfColumn<T>(s: seq<T>, f: T -> real)
    ensures Total(Column(s, f)) == Sum(s, f)
  {
    if s != [] {
      assert Column(s, f)[1..] == Column(s[1..], f);
      TotalOfColumn(s[1..], f);
    }
  }

  /** The running total of a column, at every row, is the column sum of the
      rows up to and including that one. */
  lemma CumSumOfColumn<T>(s: seq<T>, f: T -> real)
    ensures forall i :: 0 <= i < |s| ==> CumSum(Column(s, f))[i] == Sum(s[..i + 1], f)
  {
    forall i | 0 <= i < |s| ensures CumSum(Column(s, f))[i] == Sum(s[..i + 1], f) {
      assert Column(s, f)[..i + 1] == Column(s[..i + 1], f);
      TotalOfColumn(s[..i + 1], f);
    }
  }
}
