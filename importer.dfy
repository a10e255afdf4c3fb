/** importer/main.go: the stand-alone importer classifies tickers by suffix
    alone. Its parseDateFromFileName and its monthly/weekly path flags are
    the same code as main.go's and are Instruments.ParseDateFromFileName,
    Instruments.IsMonthlyPath and Instruments.IsWeeklyPath. */
module Importer {
  import opened Text
  import Tickers
  import Instruments

  /** isOption: ends in CE or PE. */
  predicate IsOption(ticker: string) { HasSuffix(ticker, "CE") || HasSuffix(ticker, "PE") }

  /** isFuture: ends in FUT. */
  predicate IsFuture(ticker: string) { HasSuffix(ticker, "FUT") }

  predicate IsDerivative(ticker: string) { IsOption(ticker) || IsFuture(ticker) }

  /** isSpot: not a derivative, and no open interest and no volume. */
  predicate IsSpot(ticker: string, oi: real, volume: real)
  {
    !IsDerivative(ticker) && oi == 0.0 && volume == 0.0
  }

  /** The suffix tests are the last two (three) characters of the ticker. */
  lemma SuffixKinds(ticker: string)
    ensures IsOption(ticker) <==> |ticker| >= 2 && Tickers.IsOptionKind(ticker[|ticker| - 2..])
    ensures IsFuture(ticker) <==> Instruments.IsFuture(ticker)
    ensures !(IsOption(ticker) && IsFuture(ticker))
  {
    if |ticker| >= 3 {
      assert ticker[|ticker| - 2..][1] == ticker[|ticker| - 1] == ticker[|ticker| - 3..][2];
    }
  }

  /** Every strict option symbol passes the suffix test, so the importer's
      derivatives include main.go's. */
  lemma StrictOptionIsOption(ticker: string)
    ensures Instruments.IsOption(ticker) ==> IsOption(ticker)
    ensures Instruments.IsDerivative(ticker) ==> IsDerivative(ticker)
  {
    if Instruments.IsOption(ticker) {
      Tickers.OptionMatchSound(ticker);
      var p := Tickers.OptionMatch(ticker).value;
      assert ticker[|ticker| - 2..] == p.kind;
    }
  }

  /** Hence a spot row here is a spot row for main.go. */
  lemma SpotIsInstrumentSpot(ticker: string, oi: real, volume: real)
    ensures IsSpot(ticker, oi, volume) ==> Instruments.IsSpot(ticker, oi, volume)
    ensures Instruments.IsSpot(ticker, oi, volume) && !IsOption(ticker) ==> IsSpot(ticker, oi, volume)
  {
    StrictOptionIsOption(ticker);
  }

  /** The converse fails: XCE ends in CE but has no strike, so the importer
      calls it an option and main.go calls it spot. */
  lemma SuffixOptionIsLoose()
    ensures IsOption("XCE") && !Tickers.IsOption("XCE")
    ensures Instruments.IsSpot("XCE", 0.0, 0.0) && !IsSpot("XCE", 0.0, 0.0)
  {
    assert "XCE"[1..] == "CE";
    assert !Tickers.IsOption("XCE") by {
      assert "XCE"[..1] == "X" && Tickers.LetterRun("X") == 1;
    }
    assert !HasSuffix("XCE", "FUT") by {
      assert "XCE"[0..] != "FUT" by { assert "XCE"[0] != "FUT"[0]; }
    }
  }
}
