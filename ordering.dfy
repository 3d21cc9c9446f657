/** `sort_values`, `nlargest` and `head`, modelled by a stable insertion sort.
    pandas does not promise an order among equal sort keys, so every property
    stated here holds whatever that order is: the result is sorted and is a
    permutation of the input. */
module Ordering {
  import opened Aggregates

  /** `sort_values(score, ascending=False)` has been applied. */
  predicate Descending<T>(s: seq<T>, score: T -> real) {
    forall i, j :: 0 <= i < j < |s| ==> score(s[i]) >= score(s[j])
  }

  /** `sort_values(rank)` has been applied. */
  predicate Ascending<T>(s: seq<T>, rank: T -> int) {
    forall i, j :: 0 <= i < j < |s| ==> rank(s[i]) <= rank(s[j])
  }

  function Insert<T(==)>(x: T, s: seq<T>, score: T -> real): (r: seq<T>)
    requires Descending(s, score)
    ensures Descending(r, score)
    ensures multiset(r) == multiset(s) + multiset{x}
    ensures |r| == |s| + 1
  {
    if s == [] || score(x) >= score(s[0]) then [x] + s
    else
      var r' := Insert(x, s[1..], score);
      assert s == [s[0]] + s[1..];
      HeadStaysFirst(x, s, r', score);
      [s[0]] + r'
  }

  lemma {:induction false} HeadStaysFirst<T>(x: T, s: seq<T>, r': seq<T>, score: T -> real)
    requires s != [] && Descending(s, score) && score(x) < score(s[0])
    requires Descending(r', score)
    requires multiset(r') == multiset(s[1..]) + multiset{x}
    ensures Descending([s[0]] + r', score)
  {
    forall i | 0 <= i < |r'| ensures score(r'[i]) <= score(s[0]) {
      assert r'[i] in multiset(r');
      if r'[i] != x {
        assert r'[i] in multiset(s[1..]);
        var k :| 0 <= k < |s[1..]| && s[1..][k] == r'[i];
        assert s[k + 1] == r'[i];
      }
    }
  }

  /** The rows ordered by `score`, largest first. */
  function SortDesc<T(==)>(s: seq<T>, score: T -> real): (r: seq<T>)
    ensures Descending(r, score)
    ensures multiset(r) == multiset(s)
    ensures |r| == |s|
  {
    if s == [] then []
    else
      assert s == [s[0]] + s[1..];
      Insert(s[0], SortDesc(s[1..], score), score)
  }

  function Negated<T>(rank: T -> int): T -> real {
    x => -(rank(x) as real)
  }

  /** The rows ordered by `rank`, smallest first. */
  function SortAsc<T(==)>(s: seq<T>, rank: T -> int): (r: seq<T>)
    ensures Ascending(r, rank)
    ensures multiset(r) == multiset(s)
    ensures |r| == |s|
  {
    SortDesc(s, Negated(rank))
  }

  /** Sorting a frame whose rows are pairwise different keeps them so. */
  lemma {:induction false} PermutationKeepsDistinct<T>(a: seq<T>, b: seq<T>)
    requires multiset(a) == multiset(b)
    requires NoDuplicates(a)
    ensures NoDuplicates(b)
  {
    forall i, j | 0 <= i < j < |b| ensures b[i] != b[j] {
      if b[i] == b[j] {
        assert b == b[..j] + b[j..];
        assert b[i] in multiset(b[..j]) && b[j] in multiset(b[j..]);
        assert multiset(b)[b[i]] >= 2;
        DistinctCountsOnce(a, b[i]);
        assert false;
      }
    }
  }

  lemma {:induction false} DistinctCountsOnce<T>(a: seq<T>, x: T)
    requires NoDuplicates(a)
    ensures multiset(a)[x] <= 1
  {
    if a != [] {
      assert a == [a[0]] + a[1..];
      assert NoDuplicates(a[1..]);
      DistinctCountsOnce(a[1..], x);
      if x == a[0] {
        assert x !in a[1..];
      }
    }
  }

  /** `nlargest(n, score)`: the `n` rows with the largest score, largest first
      (all rows when there are fewer than `n`). */
  function Largest<T(==)>(s: seq<T>, n: nat, score: T -> real): (top: seq<T>)
    ensures |top| == if n < |s| then n else |s|
    ensures Descending(top, score)
    ensures multiset(top) <= multiset(s)
  {
    var sorted := SortDesc(s, score);
    var m := if n < |s| then n else |s|;
    assert sorted == sorted[..m] + sorted[m..];
    assert multiset(sorted) == multiset(sorted[..m]) + multiset(sorted[m..]);
    sorted[..m]
  }

  /** No row left out of `nlargest` scores above a row that was kept. */
  lemma {:induction false} LargestDominates<T>(s: seq<T>, n: nat, score: T -> real, x: T, y: T)
    requires x in s && x !in Largest(s, n, score)
    requires y in Largest(s, n, score)
    ensures score(x) <= score(y)
  {
    var sorted := SortDesc(s, score);
    var m := if n < |s| then n else |s|;
    assert x in multiset(sorted);
    var j :| 0 <= j < |sorted| && sorted[j] == x;
    var i :| 0 <= i < m && sorted[i] == y;
    assert forall k :: 0 <= k < m ==> sorted[..m][k] == sorted[k];
    assert j >= m;
  }

  /** The groups of a `groupby`, reordered, still hold exactly the rows of
      their own key, are non-empty and have pairwise different keys. */
  lemma {:induction false} ReorderedGroups<T, K>(s: seq<T>, key: T -> K, hs: seq<Group<K, T>>)
    requires multiset(hs) == multiset(GroupBy(s, key))
    ensures |hs| == NUnique(s, key)
    ensures forall i :: 0 <= i < |hs| ==> hs[i].rows == Where(s, key, hs[i].key) && hs[i].rows != []
    ensures forall i, j :: 0 <= i < j < |hs| ==> hs[i].key != hs[j].key
  {
    var gs := GroupBy(s, key);
    PermutationMembers(gs, hs);
    KeysStayDistinct(gs, hs, GroupKey);
  }

  lemma {:induction false} PermutationMembers<T>(a: seq<T>, b: seq<T>)
    requires multiset(a) == multiset(b)
    ensures |a| == |b|
    ensures forall i :: 0 <= i < |b| ==> b[i] in a
  {
    assert |a| == |multiset(a)| == |multiset(b)| == |b|;
    forall i | 0 <= i < |b| ensures b[i] in a {
      assert b[i] in multiset(b);
    }
  }

  /** A property of every row holds for every row of a reordering, or of a
      selection such as `nlargest`. */
  lemma {:induction false} SelectionKeeps<T>(a: seq<T>, b: seq<T>, p: T -> bool)
    requires multiset(b) <= multiset(a)
    requires forall i :: 0 <= i < |a| ==> p(a[i])
    ensures forall i :: 0 <= i < |b| ==> p(b[i])
  {
    forall i | 0 <= i < |b| ensures p(b[i]) {
      assert b[i] in multiset(b);
      assert b[i] in multiset(a);
      var j :| 0 <= j < |a| && a[j] == b[i];
    }
  }

  /** Rows with pairwise different keys keep them different when reordered
      or selected. */
  lemma {:induction false} KeysStayDistinct<T, K>(a: seq<T>, b: seq<T>, key: T -> K)
    requires multiset(b) <= multiset(a)
    requires forall i, j :: 0 <= i < j < |a| ==> key(a[i]) != key(a[j])
    ensures forall i, j :: 0 <= i < j < |b| ==> key(b[i]) != key(b[j])
  {
    forall i, j | 0 <= i < j < |b| ensures key(b[i]) != key(b[j]) {
      assert b[i] in multiset(a) && b[j] in multiset(a);
      var x :| 0 <= x < |a| && a[x] == b[i];
      var y :| 0 <= y < |a| && a[y] == b[j];
      if key(b[i]) == key(b[j]) {
        assert x == y;
        assert b == b[..j] + b[j..];
        assert b[i] in multiset(b[..j]) && b[j] in multiset(b[j..]);
        assert multiset(b)[b[i]] >= 2;
        assert NoDuplicates(a);
        DistinctCountsOnce(a, b[i]);
        assert false;
      }
    }
  }

  /** Every key of a frame is still the key of some row after reordering. */
  lemma {:induction false} KeysCovered<T, K>(a: seq<T>, b: seq<T>, key: T -> K)
    requires multiset(a) == multiset(b)
    ensures forall j :: 0 <= j < |a| ==> exists i :: 0 <= i < |b| && key(b[i]) == key(a[j])
  {
    forall j | 0 <= j < |a| ensures exists i :: 0 <= i < |b| && key(b[i]) == key(a[j]) {
      assert a[j] in multiset(a);
      assert a[j] in multiset(b);
      var i :| 0 <= i < |b| && b[i] == a[j];
      assert key(b[i]) == key(a[j]);
    }
  }

  /** A column of shares of a column total keeps meaning that after the rows
      are reordered. */
  lemma {:induction false} SharesSurviveSort<T>(w: seq<T>, r: seq<T>, value: T -> real, share: T -> Fraction)
    requires multiset(w) == multiset(r)
    requires forall j :: 0 <= j < |w| ==> share(w[j]) == Percent(value(w[j]), Sum(w, value))
    ensures forall i :: 0 <= i < |r| ==> share(r[i]) == Percent(value(r[i]), Sum(r, value))
  {
    SumPermutation(w, r, value);
    SelectionKeeps(w, r, x => share(x) == Percent(value(x), Sum(r, value)));
  }

  /** Report rows made one per group of `c` and then reordered: every row
      keeps a property each row had when made, no key appears twice, and
      every key of `c` has its row. */
  lemma {:induction false} SortedSummaries<T, K, R>(c: seq<T>, key: T -> K, gs: seq<Group<K, T>>, w: seq<R>, t: seq<R>, rkey: R -> K, ok: R -> bool)
    requires forall i, j :: 0 <= i < j < |gs| ==> gs[i].key != gs[j].key
    requires forall x :: x in c ==> exists j :: 0 <= j < |gs| && gs[j].key == key(x)
    requires |w| == |gs| && forall j :: 0 <= j < |w| ==> ok(w[j]) && rkey(w[j]) == gs[j].key
    requires multiset(t) == multiset(w)
    ensures forall i :: 0 <= i < |t| ==> ok(t[i])
    ensures forall i, j :: 0 <= i < j < |t| ==> rkey(t[i]) != rkey(t[j])
    ensures forall x :: x in c ==> exists i :: 0 <= i < |t| && rkey(t[i]) == key(x)
  {
    SelectedSummaries(gs, w, t, rkey, ok);
    KeysCovered(w, t, rkey);
    forall x | x in c ensures exists i :: 0 <= i < |t| && rkey(t[i]) == key(x) {
      var j :| 0 <= j < |gs| && gs[j].key == key(x);
      var i :| 0 <= i < |t| && rkey(t[i]) == rkey(w[j]);
    }
  }

  /** The same for a selection of the rows, such as `nlargest`: every row
      keeps its property and no key appears twice. */
  lemma {:induction false} SelectedSummaries<K, T, R>(gs: seq<Group<K, T>>, w: seq<R>, t: seq<R>, rkey: R -> K, ok: R -> bool)
    requires forall i, j :: 0 <= i < j < |gs| ==> gs[i].key != gs[j].key
    requires |w| == |gs| && forall j :: 0 <= j < |w| ==> ok(w[j]) && rkey(w[j]) == gs[j].key
    requires multiset(t) <= multiset(w)
    ensures forall i :: 0 <= i < |t| ==> ok(t[i])
    ensures forall i, j :: 0 <= i < j < |t| ==> rkey(t[i]) != rkey(t[j])
  {
    SelectionKeeps(w, t, ok);
    KeysStayDistinct(w, t, rkey);
  }

  function GroupKey<K, T>(g: Group<K, T>): K {
    g.key
  }

  /** A report with one row per group, in any order of the groups, carries in
      its rows the column total of the grouped frame. */
  lemma {:induction false} GroupedTotal<T, K, R>(s: seq<T>, key: T -> K, hs: seq<Group<K, T>>, f: T -> real, t: seq<R>, p: R -> real)
    requires multiset(hs) == multiset(GroupBy(s, key))
    requires |t| == |hs|
    requires forall i :: 0 <= i < |t| ==> p(t[i]) == Sum(hs[i].rows, f)
    ensures Sum(t, p) == Sum(s, f)
  {
    var gs := GroupBy(s, key);
    SumPerGroup(hs, f, t, p);
    SumOverGroupsAsSum(hs, f);
    SumOverGroupsAsSum(gs, f);
    SumPermutation(hs, gs, GroupTotal(f));
    GroupByPreservesSum(s, key, f);
  }
}
