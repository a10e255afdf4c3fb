/** experiments/dump_options_in_various_tf.go: the per-file choices of the
    program that writes every NIFTY future and option in several timeframes.
    Its ticker helpers are those of the Tickers module, its readData and
    bucketing are Columnar and Ohlc, its GroupBy is Grouping.GroupBy. */
module OptionsTf {
  import opened Wrappers
  import opened Text
  import opened Tickers
  import Sorting
  import Ohlc
  import Columnar

  /** isNiftyOptionsTicker: a future or option whose underlying is NIFTY,
      ignoring case. */
  predicate IsNiftyOptionsTicker(ticker: string)
  {
    (IsOption(ticker) || IsFuture(ticker)) && EqualFold(UnderlyingFromTicker(ticker), "NIFTY")
  }

  /** Both recognisers admit only upper-case letters before the suffix, so
      the case-insensitive test is an exact one: NIFTY-FUT, and options whose
      cleaned letter prefix is NIFTY (NIFTY... and NIFTYWK...). */
  lemma NiftyDerivativesOnly(ticker: string)
    ensures IsNiftyOptionsTicker(ticker) <==>
              (IsFuture(ticker) && SymbolFromFut(ticker) == "NIFTY") ||
              (IsOption(ticker) && CleanTicker(OptionMatch(ticker).value.symbol) == "NIFTY")
  {
    assert AllUpper("NIFTY");
    if IsFuture(ticker) {
      FutureAndOptionDisjoint(ticker);
      EqualFoldOfUpper(SymbolFromFut(ticker), "NIFTY");
    } else if IsOption(ticker) {
      OptionMatchSound(ticker);
      var symbol := OptionMatch(ticker).value.symbol;
      ReplaceAllKeepsUpper(symbol, "NIFTYWK", "NIFTY");
      EqualFoldOfUpper(CleanTicker(symbol), "NIFTY");
    }
  }

  lemma AcceptsNiftyFuture()
    ensures IsNiftyOptionsTicker("NIFTY-FUT")
  {
    ParseFutureExample();
    NiftyDerivativesOnly("NIFTY-FUT");
  }

  lemma AcceptsWeeklyNiftyOption()
    ensures IsNiftyOptionsTicker("NIFTYWK13500PE")
  {
    ParseWeeklyOptionExample();
    NiftyDerivativesOnly("NIFTYWK13500PE");
  }

  lemma RejectsBankNiftyFuture()
    ensures !IsNiftyOptionsTicker("BANKNIFTY-FUT")
  {
    assert "BANKNIFTY" + "-FUT" == "BANKNIFTY-FUT";
    assert AllUpper("BANKNIFTY");
    FutureMatchExact("BANKNIFTY-FUT", "BANKNIFTY");
    NiftyDerivativesOnly("BANKNIFTY-FUT");
  }

  lemma RejectsSpot()
    ensures !IsNiftyOptionsTicker("NIFTY")
  {
    ParseSpotExample();
  }

  /** buildBaseOutputDir: the output directory by instrument kind. */
  function BuildBaseOutputDir(ticker: string, basePathForFut: string, basePathForOptions: string,
                              basePathForSpot: string): string
  {
    if IsFuture(ticker) then basePathForFut
    else if IsOption(ticker) then basePathForOptions
    else basePathForSpot
  }

  /** The directory agrees with the kind ParseTicker reports. */
  lemma OutputDirFollowsKind(ticker: string, fut: string, opt: string, spot: string)
    requires ParseTicker(ticker).Success?
    ensures var t := ParseTicker(ticker).value;
            BuildBaseOutputDir(ticker, fut, opt, spot) ==
              if t.IsFuture then fut else if t.IsOption then opt else spot
  {
  }

  /** SliceContains: a linear scan that stops at the first match. */
  method SliceContains(slice: seq<int>, elem: int) returns (found: bool)
    ensures found <==> elem in slice
  {
    for i := 0 to |slice|
      invariant elem !in slice[..i]
    {
      if elem == slice[i] {
        return true;
      }
    }
    assert slice[..|slice|] == slice;
    return false;
  }

  /** This program's loader: NIFTY derivatives, stored under cleaned keys. */
  function Selection(parseTime: string -> Option<int>, parseFloat: string -> Option<real>): Columnar.Reader
  {
    Columnar.Reader(ticker => Some(IsNiftyOptionsTicker(ticker)), true, parseTime, parseFloat)
  }

  /** readData with isNiftyOptionsTicker: only time or tick parsing can
      abort, and the names are the cleaned tickers of the accepted rows. */
  method ReadData(rows: seq<Columnar.Row>, index: Ohlc.Index,
                  parseTime: string -> Option<int>, parseFloat: string -> Option<real>)
    returns (r: Result<(Ohlc.Index, seq<string>), Columnar.ReadError>)
    ensures r.Success? <==> Columnar.ReadRows(Selection(parseTime, parseFloat), rows, index).Success?
    ensures r.Failure? ==> r.error.BadTime? || r.error.BadTick?
    ensures r.Success? ==> r.value.0 == Columnar.ReadRows(Selection(parseTime, parseFloat), rows, index).value.0
    ensures r.Success? ==> Sorting.StrictlyIncreasingStrings(r.value.1)
    ensures r.Success? ==> forall x :: x in r.value.1 <==>
              exists i :: 0 <= i < |rows| && IsNiftyOptionsTicker(Columnar.TickerOf(rows[i]))
                          && CleanTicker(Columnar.TickerOf(rows[i])) == x
  {
    var rd := Selection(parseTime, parseFloat);
    r := Columnar.ReadData(rd, rows, index);
    if r.Failure? {
      Columnar.RowsFailAtFirstAbort(rd, rows, index);
    } else {
      forall x ensures x in r.value.1 <==>
               exists i :: 0 <= i < |rows| && IsNiftyOptionsTicker(Columnar.TickerOf(rows[i]))
                           && CleanTicker(Columnar.TickerOf(rows[i])) == x
      {
        Columnar.AcceptedNames(rd, rows, index, x);
      }
    }
  }
}
