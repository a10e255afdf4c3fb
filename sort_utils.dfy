/** experiments/sort_utils.go: Int64Slice, the sort.Interface over a slice
    of int64 instants. The slice is an array; Swap exchanges two cells in
    place. Indices outside the slice panic in Go and are preconditions. */
module SortUtils {

  /** The sequence with the elements at i and j exchanged. */
  function Swapped(s: seq<int>, i: nat, j: nat): (r: seq<int>)
    requires i < |s| && j < |s|
    ensures |r| == |s| && r[i] == s[j] && r[j] == s[i]
    ensures forall k :: 0 <= k < |s| && k != i && k != j ==> r[k] == s[k]
  {
    s[i := s[j]][j := s[i]]
  }

  /** Swapping permutes: no element is lost or duplicated. */
  lemma SwappedPermutes(s: seq<int>, i: nat, j: nat)
    requires i < |s| && j < |s|
    ensures multiset(Swapped(s, i, j)) == multiset(s)
  {
    var t := s[i := s[j]];
    assert multiset(t) == multiset(s) - multiset{s[i]} + multiset{s[j]};
    assert multiset(t[j := s[i]]) == multiset(t) - multiset{t[j]} + multiset{s[i]};
  }

  /** Swapping the same two positions twice restores the sequence, and the
      order of the two positions does not matter. */
  lemma SwappedInvolution(s: seq<int>, i: nat, j: nat)
    requires i < |s| && j < |s|
    ensures Swapped(Swapped(s, i, j), i, j) == s
    ensures Swapped(s, i, j) == Swapped(s, j, i)
  {
  }

  /** Len. */
  function Len(x: array<int>): (n: nat)
    reads x
    ensures n == |x[..]|
  {
    x.Length
  }

  /** Less(i, j): the instant at i is earlier than the one at j. */
  predicate Less(x: array<int>, i: nat, j: nat)
    requires i < x.Length && j < x.Length
    reads x
  {
    x[i] < x[j]
  }

  /** After a swap, the two positions compare the other way round. */
  lemma LessAfterSwap(s: seq<int>, i: nat, j: nat)
    requires i < |s| && j < |s|
    ensures Swapped(s, i, j)[i] < Swapped(s, i, j)[j] <==> s[j] < s[i]
  {
  }

  /** Swap: x[i], x[j] = x[j], x[i]. */
  method Swap(x: array<int>, i: nat, j: nat)
    requires i < x.Length && j < x.Length
    modifies x
    ensures x[..] == Swapped(old(x[..]), i, j)
    ensures multiset(x[..]) == multiset(old(x[..]))
  {
    ghost var before := x[..];
    x[i], x[j] := x[j], x[i];
    assert x[..] == Swapped(before, i, j);
    SwappedPermutes(before, i, j);
  }
}
