/** GroupBy (a []string keyed by a string) and GroupByInt64 (a []int64 keyed
    by an int64): both append each element, in input order, to the slice
    stored under its key. One generic method models the two. */
module Grouping {
  import Sorting

  /** The elements of xs whose key is k, in input order. */
  function Filter<T, K(==)>(xs: seq<T>, key: T -> K, k: K): seq<T>
    decreases |xs|
  {
    if xs == [] then []
    else
      Filter(xs[..|xs| - 1], key, k)
      + (if key(xs[|xs| - 1]) == k then [xs[|xs| - 1]] else [])
  }

  /** Every element of a group carries the group's key, and every element
      of xs with that key is in the group. */
  lemma {:induction false} FilterMembers<T, K>(xs: seq<T>, key: T -> K, k: K)
    ensures forall y :: y in Filter(xs, key, k) ==> y in xs && key(y) == k
    ensures forall i :: 0 <= i < |xs| && key(xs[i]) == k ==> xs[i] in Filter(xs, key, k)
  {
    if xs != [] {
      var init := xs[..|xs| - 1];
      FilterMembers(init, key, k);
      forall i | 0 <= i < |init|
        ensures init[i] == xs[i]
      {
      }
    }
  }

  /** A key has a non-empty group exactly when some element carries it. */
  lemma {:induction false} FilterNonEmpty<T, K>(xs: seq<T>, key: T -> K, k: K)
    ensures Filter(xs, key, k) != [] <==> exists i :: 0 <= i < |xs| && key(xs[i]) == k
  {
    if xs != [] {
      var init := xs[..|xs| - 1];
      FilterNonEmpty(init, key, k);
      if Filter(init, key, k) != [] {
        var i :| 0 <= i < |init| && key(init[i]) == k;
        assert xs[i] == init[i];
      }
      forall i | 0 <= i < |init| && key(xs[i]) == k
        ensures Filter(init, key, k) != []
      {
        assert init[i] == xs[i];
      }
    }
  }

  /** GroupBy / GroupByInt64. */
  method GroupBy<T, K(==)>(xs: seq<T>, key: T -> K) returns (groups: map<K, seq<T>>)
    ensures forall k :: k in groups <==> exists i :: 0 <= i < |xs| && key(xs[i]) == k
    ensures forall k :: k in groups ==> groups[k] == Filter(xs, key, k)
  {
    groups := map[];
    for i := 0 to |xs|
      invariant forall k :: k in groups <==> Filter(xs[..i], key, k) != []
      invariant forall k :: k in groups ==> groups[k] == Filter(xs[..i], key, k)
    {
      assert xs[..i + 1][..i] == xs[..i];
      var x := xs[i];
      var k := key(x);
      var existing := if k in groups then groups[k] else [];
      groups := groups[k := existing + [x]];
      forall k' ensures Filter(xs[..i + 1], key, k') == if k == k' then Filter(xs[..i], key, k') + [x] else Filter(xs[..i], key, k') {
        assert xs[..i + 1][i] == x;
        assert Filter(xs[..i], key, k') + [] == Filter(xs[..i], key, k');
      }
      assert existing == Filter(xs[..i], key, k);
      assert groups[k] == Filter(xs[..i + 1], key, k);
      assert forall k' :: k' in groups && k' != k ==> groups[k'] == Filter(xs[..i + 1], key, k');
    }
    assert xs[..|xs|] == xs;
    forall k ensures k in groups <==> exists i :: 0 <= i < |xs| && key(xs[i]) == k {
      FilterNonEmpty(xs, key, k);
    }
  }

  /** Sum of the group sizes over a list of keys. */
  function SumSizes<T, K(==)>(xs: seq<T>, key: T -> K, ks: seq<K>): nat
  {
    if ks == [] then 0 else |Filter(xs, key, ks[0])| + SumSizes(xs, key, ks[1..])
  }

  lemma {:induction false} SumSizesSnoc<T, K>(xs: seq<T>, x: T, key: T -> K, ks: seq<K>)
    requires Sorting.NoDuplicates(ks)
    ensures SumSizes(xs + [x], key, ks) == SumSizes(xs, key, ks) + (if key(x) in ks then 1 else 0)
  {
    assert (xs + [x])[..|xs|] == xs;
    if ks != [] {
      SumSizesSnoc(xs, x, key, ks[1..]);
      assert key(x) in ks <==> key(x) == ks[0] || key(x) in ks[1..];
      if key(x) == ks[0] {
        assert key(x) !in ks[1..];
      }
    }
  }

  lemma {:induction false} SumSizesEmpty<T, K>(key: T -> K, ks: seq<K>)
    ensures SumSizes([], key, ks) == 0
  {
    if ks != [] { SumSizesEmpty(key, ks[1..]); }
  }

  /** Grouping loses and duplicates nothing: summed over a duplicate-free
      list holding every key, the group sizes add up to the input length. */
  lemma {:induction false} SizesSumToLength<T, K>(xs: seq<T>, key: T -> K, ks: seq<K>)
    requires Sorting.NoDuplicates(ks)
    requires forall i :: 0 <= i < |xs| ==> key(xs[i]) in ks
    ensures SumSizes(xs, key, ks) == |xs|
  {
    if xs == [] {
      SumSizesEmpty(key, ks);
    } else {
      var init := xs[..|xs| - 1];
      assert xs == init + [xs[|xs| - 1]];
      SizesSumToLength(init, key, ks);
      SumSizesSnoc(init, xs[|xs| - 1], key, ks);
    }
  }
}
