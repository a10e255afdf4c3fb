/** experiments/dump_data_by_expiry.go: the program that writes every NIFTY
    instrument of an expiry file and keeps a catalogue from underlying to
    expiry dates labelled MONTHLY or WEEKLY. Its readData2, bucketing and
    GroupByInt64 are Columnar, Ohlc and Grouping.GroupBy. */
module Expiry {
  import opened Wrappers
  import opened Text
  import opened Tickers
  import StringUtils
  import Sorting
  import Grouping
  import Ohlc
  import Columnar
  import OptionsTf

  // ---------------------------------------------------------------------
  // The record selector
  // ---------------------------------------------------------------------

  /** The spot symbols isNiftyOptionsTicker2 lets through. */
  const AllowedSpot: seq<string> := ["INDIAVIX", "NIFTY", "NIFTY-FUT", "BANKNIFTY", "BANKNIFTY-FUT"]

  /** The underlyings whose derivatives it lets through. */
  const AllowedUnderlyings: seq<string> := ["NIFTY"]

  /** isNiftyOptionsTicker2. ParseTicker's error is fatal here, so the
      selector itself can abort: None. */
  function IsNiftyOptionsTicker2(rawTicker: string): (r: Option<bool>)
    ensures r.None? <==> ParseTicker(rawTicker).Failure?
  {
    match ParseTicker(rawTicker)
    case Failure(_) => None
    case Success(ticker) =>
      if ticker.IsSpot then Some(StringUtils.StringContainsIgnoreCase(AllowedSpot, ticker.RawTicker))
      else Some(StringUtils.StringContainsIgnoreCase(AllowedUnderlyings, ticker.Underlying))
  }

  /** A spot ticker is accepted exactly when it equals an allow-listed
      symbol ignoring case. */
  lemma SpotSelection(s: string)
    requires !IsFuture(s) && !IsOption(s)
    ensures IsNiftyOptionsTicker2(s) == Some(exists i :: 0 <= i < |AllowedSpot| && EqualFold(AllowedSpot[i], s))
  {
    ParseSpot(s);
  }

  /** On derivatives that parse, the selector agrees with the one of
      experiments/dump_options_in_various_tf.go. */
  lemma DerivativeSelectionAgrees(s: string)
    requires IsFuture(s) || IsOption(s)
    requires ParseTicker(s).Success?
    ensures IsNiftyOptionsTicker2(s) == Some(OptionsTf.IsNiftyOptionsTicker(s))
  {
    var u := UnderlyingFromTicker(s);
    EqualFoldIsEquivalence(u, "NIFTY", u);
    assert StringUtils.StringContainsIgnoreCase(AllowedUnderlyings, u) == EqualFold("NIFTY", u);
  }

  /** The two selectors differ on spot symbols: the spot index NIFTY is
      loaded here and skipped there. */
  lemma SelectorsDifferOnSpot()
    ensures IsNiftyOptionsTicker2("NIFTY") == Some(true)
    ensures !OptionsTf.IsNiftyOptionsTicker("NIFTY")
  {
    ParseSpotExample();
    EqualFoldIsEquivalence("NIFTY", "NIFTY", "NIFTY");
    assert AllowedSpot[1] == "NIFTY";
  }

  /** BANKNIFTY-FUT is on the spot list, but it parses as a future on
      BANKNIFTY, so the spot branch never sees it and the derivative branch
      rejects it. */
  lemma BankNiftyFutureRejected()
    ensures IsNiftyOptionsTicker2("BANKNIFTY-FUT") == Some(false)
  {
    assert "BANKNIFTY" + "-FUT" == "BANKNIFTY-FUT";
    assert AllUpper("BANKNIFTY");
    ParseFuture("BANKNIFTY");
    assert !EqualFold("NIFTY", "BANKNIFTY");
  }

  /** NIFTY-FUT on the spot list is reached only by spellings the future
      expression rejects, such as lower case. */
  lemma LowerCaseFutureIsSpot()
    ensures IsNiftyOptionsTicker2("nifty-fut") == Some(true)
  {
    assert !IsFuture("nifty-fut") by { assert !AllUpper("nifty-fut"[..5]); }
    assert !IsOption("nifty-fut") by { assert "nifty-fut"[7..] == "ut"; }
    ParseSpot("nifty-fut");
    assert AllowedSpot[2] == "NIFTY-FUT";
    assert EqualFold("NIFTY-FUT", "nifty-fut");
  }

  /** This program's loader: the selector above, keys kept raw. */
  function Selection(parseTime: string -> Option<int>, parseFloat: string -> Option<real>): Columnar.Reader
  {
    Columnar.Reader(IsNiftyOptionsTicker2, false, parseTime, parseFloat)
  }

  /** readData2: the names are the raw tickers of the accepted rows. */
  method ReadData2(rows: seq<Columnar.Row>, index: Ohlc.Index,
                   parseTime: string -> Option<int>, parseFloat: string -> Option<real>)
    returns (r: Result<(Ohlc.Index, seq<string>), Columnar.ReadError>)
    ensures r.Success? <==> Columnar.ReadRows(Selection(parseTime, parseFloat), rows, index).Success?
    ensures r.Success? ==> r.value.0 == Columnar.ReadRows(Selection(parseTime, parseFloat), rows, index).value.0
    ensures r.Success? ==> Sorting.StrictlyIncreasingStrings(r.value.1)
    ensures r.Success? ==> forall x :: x in r.value.1 <==>
              exists i :: 0 <= i < |rows| && IsNiftyOptionsTicker2(Columnar.TickerOf(rows[i])) == Some(true)
                          && Columnar.TickerOf(rows[i]) == x
  {
    var rd := Selection(parseTime, parseFloat);
    r := Columnar.ReadData(rd, rows, index);
    if r.Success? {
      forall x ensures x in r.value.1 <==>
               exists i :: 0 <= i < |rows| && IsNiftyOptionsTicker2(Columnar.TickerOf(rows[i])) == Some(true)
                           && Columnar.TickerOf(rows[i]) == x
      {
        Columnar.AcceptedNames(rd, rows, index, x);
      }
    }
  }

  // ---------------------------------------------------------------------
  // Monthly or weekly, and the expiry day
  // ---------------------------------------------------------------------

  /** The distinct days the instants fall on. */
  function Days(instants: seq<int>, dayOf: int -> int): set<int>
    decreases |instants|
  {
    if instants == [] then {}
    else Days(instants[..|instants| - 1], dayOf) + {dayOf(instants[|instants| - 1])}
  }

  /** A day is in the set exactly when some instant falls on it. */
  lemma {:induction false} DaysMembers(instants: seq<int>, dayOf: int -> int)
    ensures forall d :: d in Days(instants, dayOf) <==> exists i :: 0 <= i < |instants| && dayOf(instants[i]) == d
  {
    if instants != [] {
      var init := instants[..|instants| - 1];
      DaysMembers(init, dayOf);
      assert forall i :: 0 <= i < |init| ==> init[i] == instants[i];
    }
  }

  /** The classification in main: group the instants by day (dayOf is the
      time-zone dependent truncateToDay), call the file monthly when it
      spans more than five days, and take the day of the last instant as
      the expiry. An empty list makes the Go index expression panic: None. */
  method ClassifyExpiry(instants: seq<int>, dayOf: int -> int) returns (r: Option<(bool, int)>)
    ensures r.None? <==> instants == []
    ensures r.Some? ==> (r.value.0 <==> |Days(instants, dayOf)| > 5)
    ensures r.Some? ==> r.value.1 == dayOf(instants[|instants| - 1])
  {
    var tickPerDay := Grouping.GroupBy(instants, dayOf);
    DaysMembers(instants, dayOf);
    forall d ensures d in tickPerDay.Keys <==> d in Days(instants, dayOf) {
    }
    assert tickPerDay.Keys == Days(instants, dayOf);
    var isMonthlyExpiry := |tickPerDay| > 5;
    if |instants| == 0 {
      return None;
    }
    var expiryDate := dayOf(instants[|instants| - 1]);
    r := Some((isMonthlyExpiry, expiryDate));
  }

  /** With instants ascending, as buildTimeTicksFromColumns returns them,
      and a day function that never goes back, the expiry is the latest day
      of the file. */
  lemma ExpiryIsLatestDay(instants: seq<int>, dayOf: int -> int)
    requires instants != [] && Sorting.StrictlyIncreasing(instants)
    requires forall a, b :: a <= b ==> dayOf(a) <= dayOf(b)
    ensures forall d :: d in Days(instants, dayOf) ==> d <= dayOf(instants[|instants| - 1])
  {
    DaysMembers(instants, dayOf);
  }

  /** No more days than instants; exactly as many when no two instants
      share a day. */
  lemma {:induction false} DaysCount(instants: seq<int>, dayOf: int -> int)
    ensures |Days(instants, dayOf)| <= |instants|
    ensures (forall i, j :: 0 <= i < j < |instants| ==> dayOf(instants[i]) != dayOf(instants[j])) ==>
              |Days(instants, dayOf)| == |instants|
  {
    if instants != [] {
      var init := instants[..|instants| - 1];
      var last := instants[|instants| - 1];
      DaysCount(init, dayOf);
      DaysMembers(init, dayOf);
      if forall i, j :: 0 <= i < j < |instants| ==> dayOf(instants[i]) != dayOf(instants[j]) {
        assert forall i, j :: 0 <= i < j < |init| ==> dayOf(init[i]) != dayOf(init[j]) by {
          assert forall i :: 0 <= i < |init| ==> init[i] == instants[i];
        }
        forall i | 0 <= i < |init| ensures dayOf(init[i]) != dayOf(last) {
          assert init[i] == instants[i];
        }
      }
    }
  }

  /** Any number of ticks on one day count as one day. */
  lemma {:induction false} OneDay(instants: seq<int>, dayOf: int -> int, d: int)
    requires instants != [] && forall i :: 0 <= i < |instants| ==> dayOf(instants[i]) == d
    ensures Days(instants, dayOf) == {d}
  {
    DaysMembers(instants, dayOf);
    assert dayOf(instants[0]) == d;
    forall e ensures e in Days(instants, dayOf) <==> e == d {
    }
  }

  // ---------------------------------------------------------------------
  // The underlying to expiry catalogue
  // ---------------------------------------------------------------------

  function Label(isMonthly: bool): (name: string)
    ensures name == "MONTHLY" <==> isMonthly
    ensures name == "WEEKLY" <==> !isMonthly
  {
    if isMonthly then "MONTHLY" else "WEEKLY"
  }

  /** The label stored at [underlying][day], if any. */
  function LabelAt(m: map<string, map<int, string>>, underlying: string, day: int): Option<string>
  {
    if underlying in m && day in m[underlying] then Some(m[underlying][day]) else None
  }

  /** The catalogue after one updateUnderlyingToExpiryMapping. */
  function WithExpiry(m: map<string, map<int, string>>, underlying: string, day: int, isMonthly: bool)
    : map<string, map<int, string>>
  {
    m[underlying := (if underlying in m then m[underlying] else map[])[day := Label(isMonthly)]]
  }

  /** A point update: [underlying][day] gets the label, nothing else changes. */
  lemma WithExpiryIsPointUpdate(m: map<string, map<int, string>>, underlying: string, day: int, isMonthly: bool,
                                u: string, d: int)
    ensures LabelAt(WithExpiry(m, underlying, day, isMonthly), u, d) ==
              if u == underlying && d == day then Some(Label(isMonthly)) else LabelAt(m, u, d)
    ensures u in WithExpiry(m, underlying, day, isMonthly) <==> u in m || u == underlying
  {
  }

  /** Every label in the catalogue is MONTHLY or WEEKLY. */
  predicate WellLabelled(m: map<string, map<int, string>>)
  {
    forall u, d :: u in m && d in m[u] ==> m[u][d] == "MONTHLY" || m[u][d] == "WEEKLY"
  }

  lemma WithExpiryKeepsLabels(m: map<string, map<int, string>>, underlying: string, day: int, isMonthly: bool)
    requires WellLabelled(m)
    ensures WellLabelled(WithExpiry(m, underlying, day, isMonthly))
  {
  }

  /** The ignore list applied before the catalogue is written. */
  const IgnoreList: seq<string> := ["INDIAVIX"]

  /** The catalogue without the underlyings on the ignore list. */
  function WithoutIgnored(m: map<string, map<int, string>>): map<string, map<int, string>>
  {
    map u | u in m && !StringUtils.StringContainsIgnoreCase(IgnoreList, u) :: m[u]
  }

  /** After the ignore pass no INDIAVIX key remains in any letter case, and
      every other underlying keeps its dates. */
  lemma IgnorePassRemovesOnlyVix(m: map<string, map<int, string>>, u: string)
    ensures u in WithoutIgnored(m) <==> u in m && !EqualFold("INDIAVIX", u)
    ensures u in WithoutIgnored(m) ==> WithoutIgnored(m)[u] == m[u]
  {
    assert StringUtils.StringContainsIgnoreCase(IgnoreList, u) <==> EqualFold(IgnoreList[0], u);
  }

  /** The map underlyingToExpiry of main, which its helper updates in place. */
  class ExpiryCatalog {
    var underlyingToExpiry: map<string, map<int, string>>

    constructor()
      ensures underlyingToExpiry == map[]
    {
      underlyingToExpiry := map[];
    }

    /** updateUnderlyingToExpiryMapping */
    method UpdateUnderlyingToExpiryMapping(ticker: Ticker, expiryDate: int, isMonthly: bool)
      modifies this
      ensures underlyingToExpiry == WithExpiry(old(underlyingToExpiry), ticker.Underlying, expiryDate, isMonthly)
    {
      var expirySoFar: map<int, string>;
      if ticker.Underlying in underlyingToExpiry {
        expirySoFar := underlyingToExpiry[ticker.Underlying];
      } else {
        expirySoFar := map[];
      }
      var value := "WEEKLY";
      if isMonthly {
        value := "MONTHLY";
      }
      expirySoFar := expirySoFar[expiryDate := value];
      underlyingToExpiry := underlyingToExpiry[ticker.Underlying := expirySoFar];
    }

    /** The ignore pass: delete every key on the ignore list, ignoring case. */
    method RemoveIgnored()
      modifies this
      ensures underlyingToExpiry == WithoutIgnored(old(underlyingToExpiry))
    {
      ghost var original := underlyingToExpiry;
      var keys := underlyingToExpiry.Keys;
      while keys != {}
        invariant keys <= original.Keys
        invariant underlyingToExpiry ==
                    map u | u in original && (u in keys || !StringUtils.StringContainsIgnoreCase(IgnoreList, u)) :: original[u]
        decreases |keys|
      {
        var key :| key in keys;
        if StringUtils.StringContainsIgnoreCase(IgnoreList, key) {
          underlyingToExpiry := underlyingToExpiry - {key};
        }
        keys := keys - {key};
      }
    }
  }
}
