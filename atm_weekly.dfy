/** experiments/analyse_atm_weekly.go: the weekly-expiry analysis loads the
    NIFTY index, its future, the volatility index and the weekly NIFTYWK
    contracts, stores them under cleaned tickers and buckets one column into
    candles. Its loader is Columnar with this selector; its bucketing is
    Ohlc.OhlcDataGroupedByFor; its TickData and ToSlice are those of Models. */
module AtmWeekly {
  import opened Wrappers
  import opened Text
  import Tickers
  import Sorting
  import Ohlc
  import Columnar

  /** isNiftyTicker. */
  predicate IsNiftyTicker(ticker: string)
  {
    ticker == "NIFTY" || ticker == "NIFTY-FUT" || ticker == "INDIAVIX" || HasPrefix(ticker, "NIFTYWK")
  }

  /** A string shorter than the pattern cannot contain it. */
  lemma {:induction false} ShortNeverContains(s: string, p: string)
    requires |s| < |p|
    ensures !Contains(s, p)
  {
    if s != [] {
      ShortNeverContains(s[1..], p);
    }
  }

  /** The key an accepted ticker is stored under: the three fixed names are
      kept as they are, and a weekly name has its leading NIFTYWK rewritten
      to NIFTY, with the rest cleaned the same way. */
  lemma StoredKey(ticker: string)
    requires IsNiftyTicker(ticker)
    ensures HasPrefix(ticker, "NIFTYWK") ==>
              Tickers.CleanTicker(ticker) == "NIFTY" + Tickers.CleanTicker(ticker[7..])
    ensures !HasPrefix(ticker, "NIFTYWK") ==> Tickers.CleanTicker(ticker) == ticker
    ensures HasPrefix(Tickers.CleanTicker(ticker), "NIFTY") || Tickers.CleanTicker(ticker) == "INDIAVIX"
  {
    var p := "NIFTYWK";
    if HasPrefix(ticker, p) {
      assert Tickers.CleanTicker(ticker) == "NIFTY" + Tickers.CleanTicker(ticker[7..]);
    } else if ticker == "NIFTY" {
      ShortNeverContains(ticker, p);
    } else if ticker == "INDIAVIX" {
      NotPrefixAt(ticker, p, 0);
      NotPrefixAt(ticker[1..], p, 1);
      ShortNeverContains(ticker[2..], p);
      assert ticker[1..][1..] == ticker[2..];
      assert !Contains(ticker[1..], p);
    } else {
      assert ticker == "NIFTY-FUT";
      NotPrefixAt(ticker, p, 5);
      NotPrefixAt(ticker[1..], p, 0);
      NotPrefixAt(ticker[2..], p, 0);
      ShortNeverContains(ticker[3..], p);
      assert ticker[1..][1..] == ticker[2..] && ticker[2..][1..] == ticker[3..];
      assert !Contains(ticker[2..], p);
      assert !Contains(ticker[1..], p);
    }
  }

  /** A weekly option NIFTYWK<strike><CE|PE> is stored as the monthly-style
      NIFTY<strike><CE|PE>. */
  lemma WeeklyOptionKey(strike: string, kind: string)
    requires AllDigits(strike) && Tickers.IsOptionKind(kind)
    ensures IsNiftyTicker("NIFTYWK" + strike + kind)
    ensures Tickers.CleanTicker("NIFTYWK" + strike + kind) == "NIFTY" + strike + kind
  {
    var raw := "NIFTYWK" + strike + kind;
    assert raw[..7] == "NIFTYWK" && raw[7..] == strike + kind;
    StoredKey(raw);
    Tickers.NoMarkerInDigitsAndKind(strike, kind);
    ReplaceAllAbsent(strike + kind, "NIFTYWK", "NIFTY");
  }

  /** The column the analysis reads: the weekly 15700 call, loaded from its
      raw ticker NIFTYWK15700CE. */
  lemma WeeklyCallColumn()
    ensures IsNiftyTicker("NIFTYWK15700CE")
    ensures Tickers.CleanTicker("NIFTYWK15700CE") == "NIFTY15700CE"
  {
    assert AllDigits("15700");
    WeeklyOptionKey("15700", "CE");
    assert "NIFTYWK" + "15700" + "CE" == "NIFTYWK15700CE";
    assert "NIFTY" + "15700" + "CE" == "NIFTY15700CE";
  }

  /** Monthly options and other underlyings are not loaded. */
  lemma RejectsMonthlyOptionAndBankNifty()
    ensures !IsNiftyTicker("NIFTY15700CE")
    ensures !IsNiftyTicker("BANKNIFTY-FUT")
  {
    NotPrefixAt("NIFTY15700CE", "NIFTYWK", 5);
    NotPrefixAt("BANKNIFTY-FUT", "NIFTYWK", 0);
  }

  /** This program's loader: isNiftyTicker, keys through cleanTicker. */
  function Selection(parseTime: string -> Option<int>, parseFloat: string -> Option<real>): Columnar.Reader
  {
    Columnar.Reader(ticker => Some(IsNiftyTicker(ticker)), true, parseTime, parseFloat)
  }

  /** readData: only time or tick parsing can abort; the names come back
      sorted, each once, and are exactly the cleaned tickers of the selected
      rows, so each is NIFTY..., or INDIAVIX. */
  method ReadData(rows: seq<Columnar.Row>, index: Ohlc.Index,
                  parseTime: string -> Option<int>, parseFloat: string -> Option<real>)
    returns (r: Result<(Ohlc.Index, seq<string>), Columnar.ReadError>)
    ensures r.Success? <==> Columnar.ReadRows(Selection(parseTime, parseFloat), rows, index).Success?
    ensures r.Failure? ==> r.error.BadTime? || r.error.BadTick?
    ensures r.Success? ==> r.value.0 == Columnar.ReadRows(Selection(parseTime, parseFloat), rows, index).value.0
    ensures r.Success? ==> Sorting.StrictlyIncreasingStrings(r.value.1)
    ensures r.Success? ==> forall x :: x in r.value.1 <==>
              exists i :: 0 <= i < |rows| && IsNiftyTicker(Columnar.TickerOf(rows[i]))
                          && Tickers.CleanTicker(Columnar.TickerOf(rows[i])) == x
    ensures r.Success? ==> forall x :: x in r.value.1 ==> HasPrefix(x, "NIFTY") || x == "INDIAVIX"
  {
    var rd := Selection(parseTime, parseFloat);
    r := Columnar.ReadData(rd, rows, index);
    if r.Failure? {
      Columnar.RowsFailAtFirstAbort(rd, rows, index);
    } else {
      forall x ensures x in r.value.1 <==>
               exists i :: 0 <= i < |rows| && IsNiftyTicker(Columnar.TickerOf(rows[i]))
                           && Tickers.CleanTicker(Columnar.TickerOf(rows[i])) == x
      {
        Columnar.AcceptedNames(rd, rows, index, x);
      }
      forall x | x in r.value.1 ensures HasPrefix(x, "NIFTY") || x == "INDIAVIX" {
        var i :| 0 <= i < |rows| && IsNiftyTicker(Columnar.TickerOf(rows[i]))
                 && Tickers.CleanTicker(Columnar.TickerOf(rows[i])) == x;
        StoredKey(Columnar.TickerOf(rows[i]));
      }
    }
  }
}
