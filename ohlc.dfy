/** ohlcDataGroupedByFor: folding one symbol's ticks, taken from a columnar
    index in the order of a list of instants, into one OHLC summary per time
    bucket. The three experiment programs carry identical copies of it. */
module Ohlc {
  import opened Models
  import Sorting

  /** map[instant]map[ticker]TickData, the columnar index readData builds. */
  type Columns = map<string, TickData>
  type Index = map<int, Columns>

  /** math.MaxFloat64, the seed of a new bucket's Low. */
  const MaxLow: real := 179769313486231570814527423731704356798070567525844996598917476803157260780028538760589558632766878171540458953514382464234321326889464182768467546703537516986049910576551282076245490090389328944075868508455133942304583236903222948165808559332123348274797826204144723168738177180919299881250404026184124858368.0

  const NanosPerSecond: int := 1_000_000_000
  /** Seconds from Go's zero time (1 January of year 1, UTC) to the Unix epoch. */
  const UnixToInternal: int := 62_135_596_800

  // ---------------------------------------------------------------------
  // Truncation of an instant to the start of its bucket
  // ---------------------------------------------------------------------

  /** time.Unix(t, 0).Truncate(d).Unix() for a Duration d in nanoseconds:
      the instant is rounded down to a multiple of d counted from the zero
      time, then read back as whole Unix seconds. A non-positive d leaves
      the instant unchanged. */
  function Truncate(t: int, d: int): int
  {
    if d <= 0 then t
    else
      var sinceZero := (t + UnixToInternal) * NanosPerSecond;
      (sinceZero - sinceZero % d) / NanosPerSecond - UnixToInternal
  }

  lemma MulAtLeast(a: int, d: int)
    requires a >= 1 && d > 0
    ensures a * d >= d
  {
    assert a * d == (a - 1) * d + d;
  }

  /** Euclidean division has exactly one quotient and remainder. */
  lemma DivModUnique(x: int, d: int, q: int, r: int)
    requires d > 0 && 0 <= r < d && x == q * d + r
    ensures x / d == q && x % d == r
  {
    var q', r' := x / d, x % d;
    var e := q - q';
    assert e * d == r' - r by {
      assert x == q' * d + r';
      assert q * d - q' * d == (q - q') * d;
    }
    if e >= 1 {
      MulAtLeast(e, d);
    } else if e <= -1 {
      MulAtLeast(-e, d);
    }
  }

  /** For a whole number s of seconds, truncation subtracts the instant's
      remainder modulo s counted from the zero time. */
  lemma {:induction false} TruncateWholeSeconds(t: int, s: int)
    requires s > 0
    ensures Truncate(t, s * NanosPerSecond) == t - (t + UnixToInternal) % s
  {
    var d := s * NanosPerSecond;
    var a := t + UnixToInternal;
    var q, r := a / s, a % s;
    assert a * NanosPerSecond == q * d + r * NanosPerSecond;
    DivModUnique(a * NanosPerSecond, d, q, r * NanosPerSecond);
    assert a * NanosPerSecond - r * NanosPerSecond == (a - r) * NanosPerSecond;
    DivModUnique((a - r) * NanosPerSecond, NanosPerSecond, a - r, 0);
  }

  /** A bucket of s whole seconds that divides the distance from the zero
      time to the epoch (60, 180, 300, 900, 3600 and 86400 seconds all do)
      starts at a Unix instant divisible by s and covers [key, key + s). */
  lemma {:induction false} TruncateAligned(t: int, s: int)
    requires s > 0 && UnixToInternal % s == 0
    ensures var k := Truncate(t, s * NanosPerSecond);
            k % s == 0 && k <= t < k + s && k == (t / s) * s
  {
    TruncateWholeSeconds(t, s);
    var k := Truncate(t, s * NanosPerSecond);
    var z := UnixToInternal / s;
    assert UnixToInternal == z * s;
    DivModUnique(t + UnixToInternal, s, t / s + z, t % s);
    assert k == (t / s) * s;
    DivModUnique(k, s, t / s, 0);
  }

  // ---------------------------------------------------------------------
  // The fold, as the loop performs it
  // ---------------------------------------------------------------------

  /** Whether the index holds a record of sym at instant t. */
  predicate Present(index: Index, t: int, sym: string)
  {
    t in index && sym in index[t]
  }

  /** The value a bucket starts from when its first tick arrives. */
  function Seed(first: TickData): TickData
  {
    TickData(first.Open, 0.0, MaxLow, 0.0, 0, 0)
  }

  /** One step of the fold: raise High, lower Low, take Close and OI,
      add Volume. Open is kept. */
  function Absorb(acc: TickData, n: TickData): TickData
  {
    TickData(acc.Open,
             if n.High > acc.High then n.High else acc.High,
             if n.Low < acc.Low then n.Low else acc.Low,
             n.Close, n.OI, acc.Volume + n.Volume)
  }

  /** The bucket map after the loop has visited every instant of the list. */
  function Fold(instants: seq<int>, index: Index, sym: string, d: int): map<int, TickData>
    decreases |instants|
  {
    if instants == [] then map[]
    else
      var acc := Fold(instants[..|instants| - 1], index, sym, d);
      var t := instants[|instants| - 1];
      if !Present(index, t, sym) then acc
      else
        var n := index[t][sym];
        var k := Truncate(t, d);
        acc[k := Absorb(if k in acc then acc[k] else Seed(n), n)]
  }

  /** ohlcDataGroupedByFor: the bucket map and its keys, ascending. */
  method OhlcDataGroupedByFor(instants: seq<int>, index: Index, sym: string, d: int)
    returns (byBucket: map<int, TickData>, keys: seq<int>)
    ensures byBucket == Fold(instants, index, sym, d)
    ensures Sorting.StrictlyIncreasing(keys)
    ensures forall k :: k in keys <==> k in byBucket
    ensures |keys| == |byBucket|
  {
    byBucket := map[];
    for i := 0 to |instants|
      invariant byBucket == Fold(instants[..i], index, sym, d)
    {
      assert instants[..i + 1][..i] == instants[..i];
      var t := instants[i];
      if t !in index || sym !in index[t] {
        continue;
      }
      var n := index[t][sym];
      var k := Truncate(t, d);
      var acc: TickData;
      if k in byBucket {
        acc := byBucket[k];
      } else {
        acc := TickData(0.0, 0.0, MaxLow, 0.0, 0, 0);
        acc := acc.(Open := n.Open);
      }
      if n.High > acc.High {
        acc := acc.(High := n.High);
      }
      if n.Low < acc.Low {
        acc := acc.(Low := n.Low);
      }
      acc := acc.(Close := n.Close, OI := n.OI, Volume := acc.Volume + n.Volume);
      byBucket := byBucket[k := acc];
    }
    assert instants[..|instants|] == instants;
    keys := Sorting.SortedInts(byBucket.Keys);
  }

  // ---------------------------------------------------------------------
  // The reference: what a bucket should hold
  // ---------------------------------------------------------------------

  /** The ticks of sym that fall into bucket k, in the order of the list. */
  function Bucket(instants: seq<int>, index: Index, sym: string, d: int, k: int): seq<TickData>
  {
    if instants == [] then []
    else
      var t := instants[0];
      (if Present(index, t, sym) && Truncate(t, d) == k then [index[t][sym]] else [])
      + Bucket(instants[1..], index, sym, d, k)
  }

  function Max(a: real, b: real): real { if a < b then b else a }
  function Min(a: real, b: real): real { if a < b then a else b }

  /** The largest High, or 0 when every High is negative. */
  function MaxHigh(s: seq<TickData>): (m: real)
    ensures m >= 0.0
    ensures forall i :: 0 <= i < |s| ==> s[i].High <= m
    ensures m == 0.0 || exists i :: 0 <= i < |s| && s[i].High == m
  {
    if s == [] then 0.0 else Max(s[0].High, MaxHigh(s[1..]))
  }

  /** The smallest Low, or MaxLow when every Low exceeds it. */
  function MinLow(s: seq<TickData>): (m: real)
    ensures m <= MaxLow
    ensures forall i :: 0 <= i < |s| ==> m <= s[i].Low
    ensures m == MaxLow || exists i :: 0 <= i < |s| && s[i].Low == m
  {
    if s == [] then MaxLow else Min(s[0].Low, MinLow(s[1..]))
  }

  function SumVolume(s: seq<TickData>): int
  {
    if s == [] then 0 else s[0].Volume + SumVolume(s[1..])
  }

  /** The OHLC summary of a non-empty run of ticks: first Open, greatest
      High, least Low, last Close and OI, total Volume. */
  function Summary(s: seq<TickData>): TickData
    requires s != []
  {
    TickData(s[0].Open, MaxHigh(s), MinLow(s), s[|s| - 1].Close, s[|s| - 1].OI, SumVolume(s))
  }

  // ---------------------------------------------------------------------
  // The fold computes the reference
  // ---------------------------------------------------------------------

  lemma {:induction false} BucketSnoc(instants: seq<int>, t: int, index: Index, sym: string, d: int, k: int)
    ensures Bucket(instants + [t], index, sym, d, k) ==
            Bucket(instants, index, sym, d, k) +
            (if Present(index, t, sym) && Truncate(t, d) == k then [index[t][sym]] else [])
  {
    if instants != [] {
      assert (instants + [t])[1..] == instants[1..] + [t];
      BucketSnoc(instants[1..], t, index, sym, d, k);
    }
  }

  lemma {:induction false} MaxHighSnoc(s: seq<TickData>, x: TickData)
    ensures MaxHigh(s + [x]) == Max(MaxHigh(s), x.High)
  {
    if s != [] {
      assert (s + [x])[1..] == s[1..] + [x];
      MaxHighSnoc(s[1..], x);
    }
  }

  lemma {:induction false} MinLowSnoc(s: seq<TickData>, x: TickData)
    ensures MinLow(s + [x]) == Min(MinLow(s), x.Low)
  {
    if s != [] {
      assert (s + [x])[1..] == s[1..] + [x];
      MinLowSnoc(s[1..], x);
    }
  }

  lemma {:induction false} SumVolumeAppend(s: seq<TickData>, u: seq<TickData>)
    ensures SumVolume(s + u) == SumVolume(s) + SumVolume(u)
  {
    if s != [] {
      assert (s + u)[0] == s[0];
      assert (s + u)[1..] == s[1..] + u;
      SumVolumeAppend(s[1..], u);
    } else {
      assert s + u == u;
    }
  }

  /** Absorbing one more tick into the summary of a run summarises the
      longer run; a seeded bucket summarises its single tick. */
  lemma SummarySnoc(s: seq<TickData>, x: TickData)
    ensures s != [] ==> Absorb(Summary(s), x) == Summary(s + [x])
    ensures Absorb(Seed(x), x) == Summary([x])
  {
    MaxHighSnoc(s, x);
    MinLowSnoc(s, x);
    SumVolumeAppend(s, [x]);
    MaxHighSnoc([], x);
    MinLowSnoc([], x);
  }

  /** The main correctness statement: a bucket exists exactly when some
      present tick truncates to its key, and it holds the summary of those
      ticks taken in list order. */
  lemma {:induction false} FoldIsSummary(instants: seq<int>, index: Index, sym: string, d: int, k: int)
    ensures k in Fold(instants, index, sym, d) <==> Bucket(instants, index, sym, d, k) != []
    ensures k in Fold(instants, index, sym, d) ==>
              Fold(instants, index, sym, d)[k] == Summary(Bucket(instants, index, sym, d, k))
  {
    if instants != [] {
      var s := instants[..|instants| - 1];
      var t := instants[|instants| - 1];
      assert instants == s + [t];
      FoldIsSummary(s, index, sym, d, k);
      BucketSnoc(s, t, index, sym, d, k);
      if Present(index, t, sym) && Truncate(t, d) == k {
        var b := Bucket(s, index, sym, d, k);
        var x := index[t][sym];
        var acc := Fold(s, index, sym, d);
        assert Fold(instants, index, sym, d) == acc[k := Absorb(if k in acc then acc[k] else Seed(x), x)];
        assert Bucket(instants, index, sym, d, k) == b + [x];
        SummarySnoc(b, x);
        if b == [] {
          assert b + [x] == [x];
        }
      } else {
        assert Bucket(instants, index, sym, d, k) == Bucket(s, index, sym, d, k);
        assert k in Fold(instants, index, sym, d) ==> Fold(instants, index, sym, d)[k] == Fold(s, index, sym, d)[k];
      }
    }
  }

  lemma {:induction false} BucketNonEmpty(instants: seq<int>, index: Index, sym: string, d: int, k: int)
    ensures Bucket(instants, index, sym, d, k) != [] <==>
            exists i :: 0 <= i < |instants| && Present(index, instants[i], sym) && Truncate(instants[i], d) == k
  {
    if instants != [] {
      BucketNonEmpty(instants[1..], index, sym, d, k);
      if Bucket(instants[1..], index, sym, d, k) != [] {
        var i :| 0 <= i < |instants[1..]| && Present(index, instants[1..][i], sym) && Truncate(instants[1..][i], d) == k;
        assert instants[i + 1] == instants[1..][i];
      }
      forall i | 1 <= i < |instants| && Present(index, instants[i], sym) && Truncate(instants[i], d) == k
        ensures Bucket(instants[1..], index, sym, d, k) != []
      {
        assert instants[1..][i - 1] == instants[i];
      }
    }
  }

  /** Every bucket key is the truncation of some present instant, and every
      present instant's truncation is a key: absent instants add nothing. */
  lemma FoldKeys(instants: seq<int>, index: Index, sym: string, d: int, k: int)
    ensures k in Fold(instants, index, sym, d) <==>
            exists i :: 0 <= i < |instants| && Present(index, instants[i], sym) && Truncate(instants[i], d) == k
  {
    FoldIsSummary(instants, index, sym, d, k);
    BucketNonEmpty(instants, index, sym, d, k);
  }

  /** The Open of a bucket is the Open of its first tick and its Close and
      OI those of its last; High and Low bound every tick of the bucket. */
  lemma BucketEnds(instants: seq<int>, index: Index, sym: string, d: int, k: int)
    requires k in Fold(instants, index, sym, d)
    ensures var b := Bucket(instants, index, sym, d, k);
            var v := Fold(instants, index, sym, d)[k];
            b != [] && v.Open == b[0].Open && v.Close == b[|b| - 1].Close && v.OI == b[|b| - 1].OI
            && (forall i :: 0 <= i < |b| ==> b[i].Low >= v.Low && b[i].High <= v.High)
            && v.Volume == SumVolume(b)
  {
    FoldIsSummary(instants, index, sym, d, k);
  }

  /** Instants without a record of sym change nothing: dropping them gives
      the same buckets. */
  function PresentOnly(instants: seq<int>, index: Index, sym: string): (r: seq<int>)
    ensures forall t :: t in r <==> t in instants && Present(index, t, sym)
  {
    if instants == [] then []
    else
      (if Present(index, instants[0], sym) then [instants[0]] else [])
      + PresentOnly(instants[1..], index, sym)
  }

  lemma {:induction false} BucketOfPresentOnly(instants: seq<int>, index: Index, sym: string, d: int, k: int)
    ensures Bucket(PresentOnly(instants, index, sym), index, sym, d, k) == Bucket(instants, index, sym, d, k)
  {
    if instants != [] {
      var rest := PresentOnly(instants[1..], index, sym);
      BucketOfPresentOnly(instants[1..], index, sym, d, k);
      if Present(index, instants[0], sym) {
        assert PresentOnly(instants, index, sym) == [instants[0]] + rest;
        assert ([instants[0]] + rest)[0] == instants[0];
        assert ([instants[0]] + rest)[1..] == rest;
      } else {
        assert PresentOnly(instants, index, sym) == [] + rest == rest;
      }
    }
  }

  lemma AbsentInstantsChangeNothing(instants: seq<int>, index: Index, sym: string, d: int)
    ensures Fold(PresentOnly(instants, index, sym), index, sym, d) == Fold(instants, index, sym, d)
  {
    var f := Fold(instants, index, sym, d);
    var g := Fold(PresentOnly(instants, index, sym), index, sym, d);
    forall k
      ensures (k in f <==> k in g) && (k in f ==> f[k] == g[k])
    {
      FoldIsSummary(instants, index, sym, d, k);
      FoldIsSummary(PresentOnly(instants, index, sym), index, sym, d, k);
      BucketOfPresentOnly(instants, index, sym, d, k);
    }
  }

  // ---------------------------------------------------------------------
  // Volume is conserved across buckets
  // ---------------------------------------------------------------------

  /** Total Volume of the present ticks of sym along the list. */
  function TotalVolume(instants: seq<int>, index: Index, sym: string): int
    decreases |instants|
  {
    if instants == [] then 0
    else
      var t := instants[|instants| - 1];
      TotalVolume(instants[..|instants| - 1], index, sym)
      + (if Present(index, t, sym) then index[t][sym].Volume else 0)
  }

  /** The sum of the Volumes of the buckets listed in ks. */
  function VolumeOver(m: map<int, TickData>, ks: seq<int>): int
  {
    if ks == [] then 0
    else (if ks[0] in m then m[ks[0]].Volume else 0) + VolumeOver(m, ks[1..])
  }

  lemma {:induction false} VolumeOverUpdate(m: map<int, TickData>, k: int, v: TickData, delta: int, ks: seq<int>)
    requires Sorting.NoDuplicates(ks) && k in ks
    requires v.Volume == (if k in m then m[k].Volume else 0) + delta
    ensures VolumeOver(m[k := v], ks) == VolumeOver(m, ks) + delta
  {
    if ks[0] != k {
      assert k in ks[1..];
      VolumeOverUpdate(m, k, v, delta, ks[1..]);
    } else {
      VolumeOverUnchanged(m, k, v, ks[1..]);
    }
  }

  lemma {:induction false} VolumeOverUnchanged(m: map<int, TickData>, k: int, v: TickData, ks: seq<int>)
    requires k !in ks
    ensures VolumeOver(m[k := v], ks) == VolumeOver(m, ks)
  {
    if ks != [] {
      VolumeOverUnchanged(m, k, v, ks[1..]);
    }
  }

  lemma {:induction false} FoldGrows(instants: seq<int>, t: int, index: Index, sym: string, d: int)
    ensures Fold(instants, index, sym, d).Keys <= Fold(instants + [t], index, sym, d).Keys
  {
    assert (instants + [t])[..|instants|] == instants;
  }

  /** Summed over the returned key list, the bucket Volumes give the total
      Volume of every present tick: no tick is lost or counted twice. */
  lemma {:induction false} VolumeConserved(instants: seq<int>, index: Index, sym: string, d: int, ks: seq<int>)
    requires Sorting.NoDuplicates(ks)
    requires forall k :: k in Fold(instants, index, sym, d) ==> k in ks
    ensures VolumeOver(Fold(instants, index, sym, d), ks) == TotalVolume(instants, index, sym)
  {
    if instants == [] {
      VolumeOverEmpty(ks);
    } else {
      var s := instants[..|instants| - 1];
      var t := instants[|instants| - 1];
      assert instants == s + [t];
      FoldGrows(s, t, index, sym, d);
      VolumeConserved(s, index, sym, d, ks);
      if Present(index, t, sym) {
        var acc := Fold(s, index, sym, d);
        var n := index[t][sym];
        var k := Truncate(t, d);
        VolumeOverUpdate(acc, k, Absorb(if k in acc then acc[k] else Seed(n), n), n.Volume, ks);
      }
    }
  }

  lemma {:induction false} VolumeOverEmpty(ks: seq<int>)
    ensures VolumeOver(map[], ks) == 0
  {
    if ks != [] { VolumeOverEmpty(ks[1..]); }
  }

  /** The method's two results together: its key list covers every tick's
      Volume exactly once. */
  lemma KeysConserveVolume(instants: seq<int>, index: Index, sym: string, d: int, keys: seq<int>)
    requires Sorting.StrictlyIncreasing(keys)
    requires forall k :: k in keys <==> k in Fold(instants, index, sym, d)
    ensures VolumeOver(Fold(instants, index, sym, d), keys) == TotalVolume(instants, index, sym)
  {
    VolumeConserved(instants, index, sym, d, keys);
  }

  // ---------------------------------------------------------------------
  // A worked example
  // ---------------------------------------------------------------------

  /** Three NIFTY-FUT minutes and a minute with only an option record,
      grouped into five-minute bars: the first three share the bar starting
      at 1600000200; the option-only minute adds nothing. */
  lemma FiveMinuteExample()
    ensures var index: Index := map[
              1600000200 := map["NIFTY-FUT" := TickData(100.0, 102.0, 99.0, 101.0, 10, 5)],
              1600000260 := map["NIFTY-FUT" := TickData(101.0, 106.0, 100.0, 105.0, 12, 7),
                                "NIFTY13500PE" := TickData(1.0, 1.0, 1.0, 1.0, 1, 1)],
              1600000320 := map["NIFTY-FUT" := TickData(105.0, 105.0, 103.0, 104.0, 11, 3)],
              1600000380 := map["NIFTY13500PE" := TickData(2.0, 2.0, 2.0, 2.0, 2, 2)]];
            Fold([1600000200, 1600000260, 1600000320, 1600000380], index, "NIFTY-FUT", 300 * NanosPerSecond)
              == map[1600000200 := TickData(100.0, 106.0, 99.0, 104.0, 11, 15)]
  {
    var index: Index := map[
      1600000200 := map["NIFTY-FUT" := TickData(100.0, 102.0, 99.0, 101.0, 10, 5)],
      1600000260 := map["NIFTY-FUT" := TickData(101.0, 106.0, 100.0, 105.0, 12, 7),
                        "NIFTY13500PE" := TickData(1.0, 1.0, 1.0, 1.0, 1, 1)],
      1600000320 := map["NIFTY-FUT" := TickData(105.0, 105.0, 103.0, 104.0, 11, 3)],
      1600000380 := map["NIFTY13500PE" := TickData(2.0, 2.0, 2.0, 2.0, 2, 2)]];
    var d := 300 * NanosPerSecond;
    var sym := "NIFTY-FUT";
    TruncateAligned(1600000200, 300);
    TruncateAligned(1600000260, 300);
    TruncateAligned(1600000320, 300);
    var instants := [1600000200, 1600000260, 1600000320, 1600000380];
    assert instants[..3] == [1600000200, 1600000260, 1600000320];
    assert instants[..3][..2] == [1600000200, 1600000260];
    assert instants[..3][..2][..1] == [1600000200];
    assert [1600000200][..0] == [];
    assert Fold([1600000200], index, sym, d) == map[1600000200 := TickData(100.0, 102.0, 99.0, 101.0, 10, 5)];
    assert Fold([1600000200, 1600000260], index, sym, d) == map[1600000200 := TickData(100.0, 106.0, 99.0, 105.0, 12, 12)];
    assert Fold(instants[..3], index, sym, d) == map[1600000200 := TickData(100.0, 106.0, 99.0, 104.0, 11, 15)];
    assert !Present(index, 1600000380, sym);
  }
}
