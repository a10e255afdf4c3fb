/** Building a map's sorted key list: the Go code appends every key of a map
    or set to a slice and sorts it (sort.Slice on int64, sort.Strings on
    strings). Repeatedly taking the least remaining key gives the same list. */
module Sorting {

  predicate StrictlyIncreasing(s: seq<int>)
  {
    forall i, j :: 0 <= i < j < |s| ==> s[i] < s[j]
  }

  predicate NoDuplicates<T(==)>(s: seq<T>)
  {
    forall i, j :: 0 <= i < j < |s| ==> s[i] != s[j]
  }

  /** Byte-wise lexicographic order of Go strings. */
  predicate StrLess(a: string, b: string)
  {
    if a == [] then b != []
    else if b == [] then false
    else if a[0] != b[0] then a[0] < b[0]
    else StrLess(a[1..], b[1..])
  }

  lemma {:induction false} StrLessIrreflexive(a: string)
    ensures !StrLess(a, a)
  {
    if a != [] { StrLessIrreflexive(a[1..]); }
  }

  lemma {:induction false} StrLessTotal(a: string, b: string)
    ensures a == b || StrLess(a, b) || StrLess(b, a)
  {
    if a != [] && b != [] && a[0] == b[0] {
      StrLessTotal(a[1..], b[1..]);
      if a[1..] == b[1..] { assert a == [a[0]] + a[1..] && b == [b[0]] + b[1..]; }
    }
  }

  lemma {:induction false} StrLessTransitive(a: string, b: string, c: string)
    requires StrLess(a, b) && StrLess(b, c)
    ensures StrLess(a, c)
  {
    if a != [] && b != [] && c != [] && a[0] == b[0] && b[0] == c[0] {
      StrLessTransitive(a[1..], b[1..], c[1..]);
    }
  }

  predicate StrictlyIncreasingStrings(s: seq<string>)
  {
    forall i, j :: 0 <= i < j < |s| ==> StrLess(s[i], s[j])
  }

  /** Some member of a non-empty set. */
  lemma Pick<T>(s: set<T>) returns (x: T)
    requires s != {}
    ensures x in s
  {
    x :| x in s;
  }

  lemma MinIntExists(s: set<int>) returns (m: int)
    requires s != {}
    ensures m in s && forall y :: y in s ==> m <= y
  {
    var x := Pick(s);
    if s == {x} {
      m := x;
    } else {
      var rest := s - {x};
      var m' := MinIntExists(rest);
      m := if x < m' then x else m';
      forall y | y in s ensures m <= y {
        if y != x { assert y in rest; }
      }
    }
  }

  lemma MinStringExists(s: set<string>) returns (m: string)
    requires s != {}
    ensures m in s && forall y :: y in s && y != m ==> StrLess(m, y)
  {
    var x :| x in s;
    if s == {x} {
      m := x;
    } else {
      var rest := s - {x};
      var m' := MinStringExists(rest);
      StrLessTotal(x, m');
      if StrLess(x, m') {
        m := x;
        forall y | y in s && y != m ensures StrLess(m, y) {
          assert y in rest;
          if y != m' { StrLessTransitive(x, m', y); }
        }
      } else {
        m := m';
        forall y | y in s && y != m ensures StrLess(m, y) {
          if y != x { assert y in rest; }
        }
      }
    }
  }

  /** The keys of an int-keyed map or set, ascending, each once. */
  method SortedInts(keys: set<int>) returns (r: seq<int>)
    ensures StrictlyIncreasing(r)
    ensures forall x :: x in r <==> x in keys
    ensures |r| == |keys|
  {
    r := [];
    var rest := keys;
    while rest != {}
      invariant rest <= keys
      invariant forall x :: x in keys <==> x in r || x in rest
      invariant forall x :: x in r ==> x !in rest
      invariant StrictlyIncreasing(r)
      invariant forall i, y :: 0 <= i < |r| && y in rest ==> r[i] < y
      invariant |r| + |rest| == |keys|
      decreases |rest|
    {
      ghost var least := MinIntExists(rest);
      var m :| m in rest && forall y | y in rest :: m <= y;
      r := r + [m];
      rest := rest - {m};
    }
  }

  /** sort.Strings over the members of a set: ascending, each once. */
  method SortedStrings(names: set<string>) returns (r: seq<string>)
    ensures StrictlyIncreasingStrings(r)
    ensures forall x :: x in r <==> x in names
    ensures |r| == |names|
  {
    r := [];
    var rest := names;
    while rest != {}
      invariant rest <= names
      invariant forall x :: x in names <==> x in r || x in rest
      invariant forall x :: x in r ==> x !in rest
      invariant StrictlyIncreasingStrings(r)
      invariant forall i, y :: 0 <= i < |r| && y in rest ==> StrLess(r[i], y)
      invariant |r| + |rest| == |names|
      decreases |rest|
    {
      ghost var least := MinStringExists(rest);
      var m :| m in rest && forall y | y in rest && y != m :: StrLess(m, y);
      r := r + [m];
      rest := rest - {m};
    }
  }
}
