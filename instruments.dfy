/** main.go: the database importer's per-ticker helpers and the fields it
    derives for a new Instrument row. Here a future is anything ending in
    FUT, while an option must match the strict option expression, and the
    Instrument's Symbol is the raw letter prefix (no WK normalisation). */
module Instruments {
  import opened Wrappers
  import opened Text
  import Tickers

  // ---------------------------------------------------------------------
  // Underlying names
  // ---------------------------------------------------------------------

  /** findUnderlyingFromSymbol: nifty and banknifty, in any letter case, are
      written in upper case; every other symbol is returned as it is. */
  function FindUnderlyingFromSymbol(symbol: string): (u: string)
    ensures EqualFold(u, symbol)
    ensures u == symbol || u == "NIFTY" || u == "BANKNIFTY"
  {
    if EqualFold(symbol, "BANKNIFTY") then "BANKNIFTY"
    else if EqualFold(symbol, "NIFTY") then "NIFTY"
    else symbol
  }

  /** Which symbols name which underlying. */
  lemma UnderlyingNames(symbol: string)
    ensures FindUnderlyingFromSymbol(symbol) == "NIFTY" <==> EqualFold(symbol, "NIFTY")
    ensures FindUnderlyingFromSymbol(symbol) == "BANKNIFTY" <==> EqualFold(symbol, "BANKNIFTY")
    ensures !EqualFold(symbol, "NIFTY") && !EqualFold(symbol, "BANKNIFTY") ==>
              FindUnderlyingFromSymbol(symbol) == symbol
  {
    assert !EqualFold("BANKNIFTY", "NIFTY");
    EqualFoldIsEquivalence(symbol, "NIFTY", "NIFTY");
    EqualFoldIsEquivalence(symbol, "BANKNIFTY", "BANKNIFTY");
  }

  /** Applying it twice is applying it once. */
  lemma UnderlyingIdempotent(symbol: string)
    ensures FindUnderlyingFromSymbol(FindUnderlyingFromSymbol(symbol)) == FindUnderlyingFromSymbol(symbol)
  {
    var u := FindUnderlyingFromSymbol(symbol);
    EqualFoldIsEquivalence(u, symbol, "NIFTY");
    EqualFoldIsEquivalence(u, symbol, "BANKNIFTY");
    EqualFoldIsEquivalence(symbol, u, "NIFTY");
    EqualFoldIsEquivalence(symbol, u, "BANKNIFTY");
  }

  lemma UnderlyingExamples()
    ensures FindUnderlyingFromSymbol("nifty") == "NIFTY"
    ensures FindUnderlyingFromSymbol("BankNifty") == "BANKNIFTY"
    ensures FindUnderlyingFromSymbol("NIFTYWK") == "NIFTYWK"
  {
    assert EqualFold("nifty", "NIFTY");
    assert EqualFold("BankNifty", "BANKNIFTY");
    assert Lower("NIFTYWK"[5]) != Lower("BANKNIFTY"[5]);
    UnderlyingNames("NIFTYWK");
  }

  // ---------------------------------------------------------------------
  // Classification
  // ---------------------------------------------------------------------

  /** isOption: the strict option expression. */
  predicate IsOption(ticker: string) { Tickers.IsOption(ticker) }

  /** isFuture: a bare suffix test. */
  predicate IsFuture(ticker: string) { HasSuffix(ticker, "FUT") }

  predicate IsDerivative(ticker: string) { IsOption(ticker) || IsFuture(ticker) }

  /** isSpot: not a derivative, and no open interest and no volume. */
  predicate IsSpot(ticker: string, oi: real, volume: real)
  {
    !IsDerivative(ticker) && oi == 0.0 && volume == 0.0
  }

  /** The suffix test admits every future the strict expression admits, and
      more: dated futures such as NIFTY22MARFUT. Options never end in FUT. */
  lemma FutureTests(ticker: string)
    ensures Tickers.IsFuture(ticker) ==> IsFuture(ticker)
    ensures IsOption(ticker) ==> !IsFuture(ticker)
  {
    if Tickers.IsFuture(ticker) {
      var l := Tickers.SymbolFromFut(ticker);
      assert ticker[|ticker| - 3..] == "FUT";
    }
    if IsOption(ticker) {
      Tickers.OptionMatchSound(ticker);
      var p := Tickers.OptionMatch(ticker).value;
      assert ticker[|ticker| - 1] == p.kind[1];
    }
  }

  lemma DatedFuture()
    ensures IsFuture("NIFTY22MARFUT") && !Tickers.IsFuture("NIFTY22MARFUT")
  {
    assert "NIFTY22MARFUT"[10..] == "FUT";
    Tickers.FutureMatchExact("NIFTY22MARFUT", "NIFTY22MAR");
    assert !AllUpper("NIFTY22MAR") by { assert !IsUpper("NIFTY22MAR"[5]); }
  }

  /** A spot row here is also spot for ParseTicker; the converse fails only
      for dated futures and rows with open interest or volume. */
  lemma SpotIsParsedSpot(ticker: string, oi: real, volume: real)
    ensures IsSpot(ticker, oi, volume) ==>
              Tickers.ParseTicker(ticker) == Success(Tickers.Ticker(ticker, ticker, false, false, true, 0, ""))
    ensures (Tickers.ParseTicker(ticker).Success? && Tickers.ParseTicker(ticker).value.IsSpot
             && !IsFuture(ticker) && oi == 0.0 && volume == 0.0) ==> IsSpot(ticker, oi, volume)
  {
    FutureTests(ticker);
    if !IsDerivative(ticker) {
      Tickers.ParseSpot(ticker);
    }
  }

  // ---------------------------------------------------------------------
  // Splitting symbols
  // ---------------------------------------------------------------------

  /** optionStrikeFromTicker: the three groups [letters, digits, CE|PE] of a
      strict option symbol, or an error. */
  function OptionStrikeFromTicker(input: string): (r: Result<seq<string>, Tickers.TickerError>)
    ensures r.Success? <==> IsOption(input)
    ensures r.Success? ==> |r.value| == 3 && r.value[0] + r.value[1] + r.value[2] == input
                           && Tickers.OptionShaped(Tickers.OptionParts(r.value[0], r.value[1], r.value[2]))
  {
    if !IsOption(input) then Failure(Tickers.NotAnOption(input))
    else
      Tickers.OptionMatchSound(input);
      var m := Tickers.OptionMatch(input).value;
      Success([m.symbol, m.strike, m.kind])
  }

  /** Splitting a joined option symbol gives back its pieces. */
  lemma OptionStrikeRoundTrip(p: Tickers.OptionParts)
    requires Tickers.OptionShaped(p)
    ensures OptionStrikeFromTicker(p.symbol + p.strike + p.kind) == Success([p.symbol, p.strike, p.kind])
  {
    Tickers.OptionMatchComplete(p);
  }

  /** symbolFromFut: `matches[1]` of the strict future expression. On a
      ticker that only ends in FUT there is no match and the Go code panics;
      that is None here. */
  function SymbolFromFut(input: string): (r: Option<string>)
    ensures r.Some? <==> Tickers.IsFuture(input)
    ensures r.Some? ==> input == r.value + "-FUT" && AllUpper(r.value)
  {
    if Tickers.IsFuture(input) then Some(Tickers.SymbolFromFut(input)) else None
  }

  // ---------------------------------------------------------------------
  // Expiry date from the file name
  // ---------------------------------------------------------------------

  /** The three numbers of a DDMMYYYY file name; building a time.Time from
      them is a library call and is not modelled. */
  datatype FileDate = FileDate(Day: int, Month: int, Year: int)

  datatype DateError =
    | NameTooShort(name: string)   // slicing past the end panics
    | BadNumber(part: string)      // strconv.ParseInt(part, 10, 16) failed

  /** parseDateFromFileName: day from [0,2), month from [2,4), year from
      [4,end), each a base-10 16-bit integer, checked in that order. */
  function ParseDateFromFileName(name: string): (r: Result<FileDate, DateError>)
    ensures r.Success? ==> 4 <= |name|
    ensures r.Success? ==> ParseInt(name[..2], Bits16) == Some(r.value.Day)
                           && ParseInt(name[2..4], Bits16) == Some(r.value.Month)
                           && ParseInt(name[4..], Bits16) == Some(r.value.Year)
    ensures r.Success? <==> 4 <= |name| && ParseInt(name[..2], Bits16).Some?
                            && ParseInt(name[2..4], Bits16).Some?
                            && ParseInt(name[4..], Bits16).Some?
    ensures 4 <= |name| && r.Failure? ==> r.error.BadNumber?
    ensures r.Failure? && r.error.BadNumber? ==> ParseInt(r.error.part, Bits16).None?
  {
    if |name| < 2 then Failure(NameTooShort(name))
    else
      match ParseInt(name[..2], Bits16)
      case None => Failure(BadNumber(name[..2]))
      case Some(day) =>
        if |name| < 4 then Failure(NameTooShort(name))
        else
          match ParseInt(name[2..4], Bits16)
          case None => Failure(BadNumber(name[2..4]))
          case Some(month) =>
            match ParseInt(name[4..], Bits16)
            case None => Failure(BadNumber(name[4..]))
            case Some(year) => Success(FileDate(day, month, year))
  }

  /** A number below 100 written with exactly two digits. */
  function TwoDigits(n: nat): (s: string)
    requires n < 100
    ensures |s| == 2 && AllDigits(s) && DecimalValue(s) == n
  {
    var s := [DigitChar(n / 10), DigitChar(n % 10)];
    assert s[..1] == [DigitChar(n / 10)] && s[..1][..0] == [];
    assert DecimalValue(s[..1]) == n / 10;
    assert DecimalValue(s) == 10 * (n / 10) + n % 10;
    s
  }

  /** Writing a date as DDMMYYYY and reading the file name back gives the
      date. */
  lemma FileNameRoundTrip(day: nat, month: nat, year: nat)
    requires day < 100 && month < 100 && year <= MaxInt(Bits16)
    ensures ParseDateFromFileName(TwoDigits(day) + TwoDigits(month) + DecimalString(year))
              == Success(FileDate(day, month, year))
  {
    var name := TwoDigits(day) + TwoDigits(month) + DecimalString(year);
    assert name[..2] == TwoDigits(day);
    assert name[2..4] == TwoDigits(month);
    assert name[4..] == DecimalString(year);
    DecimalRoundTrip(year);
  }

  lemma FileNameExample()
    ensures ParseDateFromFileName("28082020") == Success(FileDate(28, 8, 2020))
  {
    assert TwoDigits(28) == "28" && TwoDigits(8) == "08";
    assert DecimalString(2020) == "2020" by {
      assert DecimalString(2) == "2";
      assert DecimalString(20) == "20";
      assert DecimalString(202) == "202";
    }
    FileNameRoundTrip(28, 8, 2020);
    assert "28" + "08" + "2020" == "28082020";
  }

  /** strconv.ParseInt takes a sign, so a year written "+2020" is read too. */
  lemma FileNameSignedYear()
    ensures ParseDateFromFileName("2808+2020") == Success(FileDate(28, 8, 2020))
  {
    var name := "2808+2020";
    assert name[..2] == "28" && name[2..4] == "08" && name[4..] == "+2020";
    TwoDigitParts();
    SignedYearPart();
  }

  lemma TwoDigitParts()
    ensures ParseInt("28", Bits16) == Some(28) && ParseInt("08", Bits16) == Some(8)
  {
    assert AllDigits("28") && DecimalValue("28") == 28 by {
      assert "28"[..1] == "2" && "2"[..0] == "";
    }
    assert AllDigits("08") && DecimalValue("08") == 8 by {
      assert "08"[..1] == "0" && "0"[..0] == "";
    }
  }

  lemma SignedYearPart()
    ensures ParseInt("+2020", Bits16) == Some(2020)
  {
    assert Unsigned("+2020") == "2020";
    assert DecimalString(2020) == "2020" by {
      assert DecimalString(2) == "2";
      assert DecimalString(20) == "20";
      assert DecimalString(202) == "202";
    }
    DecimalRoundTrip(2020);
  }

  /** Names too short to slice, or with a non-numeric part, are rejected. */
  lemma FileNameErrors()
    ensures ParseDateFromFileName("2") == Failure(NameTooShort("2"))
    ensures ParseDateFromFileName("280") == Failure(NameTooShort("280"))
    ensures ParseDateFromFileName("2808") == Failure(BadNumber(""))
  {
    assert "280"[..2] == "28" && AllDigits("28") && DecimalValue("28") == 28 by {
      assert "28"[..1] == "2" && "2"[..0] == "";
    }
    assert "2808"[..2] == "28" && "2808"[2..4] == "08" && "2808"[4..] == "";
    assert AllDigits("08") && DecimalValue("08") == 8 by {
      assert "08"[..1] == "0" && "0"[..0] == "";
    }
  }

  // ---------------------------------------------------------------------
  // Expiry kind from the path
  // ---------------------------------------------------------------------

  /** isMonthlyExpiry and isWeeklyExpiry: the directory names in the path. */
  predicate IsMonthlyPath(path: string) { Contains(path, "/monthly/") }

  predicate IsWeeklyPath(path: string) { Contains(path, "/weekly/") }

  /** A pattern occurring somewhere inside a string is found. */
  lemma {:induction false} ContainsInside(a: string, p: string, b: string)
    ensures Contains(a + p + b, p)
  {
    if a == [] {
      assert (a + p + b)[..|p|] == p;
    } else {
      assert (a + p + b)[1..] == a[1..] + p + b;
      ContainsInside(a[1..], p, b);
    }
  }

  lemma PathFlags(dir: string, file: string)
    ensures IsMonthlyPath(dir + "/monthly/" + file)
    ensures IsWeeklyPath(dir + "/weekly/" + file)
  {
    ContainsInside(dir, "/monthly/", file);
    ContainsInside(dir, "/weekly/", file);
  }

  // ---------------------------------------------------------------------
  // Instrument fields
  // ---------------------------------------------------------------------

  /** The Instrument columns the importer fills in (its gorm bookkeeping
      columns are not modelled). Nullable columns are Options. */
  datatype Instrument = Instrument(
    Symbol: string,
    Expiry: Option<int>,
    IsWeeklyExpiry: bool,
    IsMonthlyExpiry: bool,
    IsSpot: bool,
    Strike: Option<int>,
    LotSize: Option<int>,
    Underlying: string,
    InstrumentType: string)

  /** Each is a handleError exit or a panic in Go. */
  datatype InstrumentError =
    | NotAnOptionSymbol(error: Tickers.TickerError)   // optionStrikeFromTicker
    | StrikeOutOfRange(strike: string)                // NullableInt32FromString
    | UnknownInstrumentType(kind: string)             // NewInstrumentType
    | NoFutureSymbol(ticker: string)                  // symbolFromFut indexing a failed match

  const LotSize: int := 50

  /** Lines 93-122 of main.go for a ticker not yet cached: the option branch,
      then the future branch, then the underlying of whatever Symbol those
      left, then isSpot. NewInstrumentType is not part of this model and is
      a parameter. */
  function DeriveInstrument(ticker: string, oi: real, volume: real, expiry: int,
                            weekly: bool, monthly: bool,
                            newInstrumentType: string -> Option<string>): (r: Result<Instrument, InstrumentError>)
    ensures r.Success? ==> r.value.Underlying == FindUnderlyingFromSymbol(r.value.Symbol)
    ensures r.Success? ==> r.value.IsSpot == IsSpot(ticker, oi, volume)
    ensures r.Success? ==> (r.value.LotSize == Some(LotSize) <==> IsDerivative(ticker))
    ensures r.Success? ==> r.value.Expiry == Some(expiry) && r.value.IsWeeklyExpiry == weekly
                           && r.value.IsMonthlyExpiry == monthly
    ensures r.Failure? ==> ((r.error.StrikeOutOfRange? || r.error.UnknownInstrumentType?) && IsOption(ticker))
                           || (r.error.NoFutureSymbol? && IsFuture(ticker) && !Tickers.IsFuture(ticker))
    ensures IsFuture(ticker) && !Tickers.IsFuture(ticker) ==> r == Failure(NoFutureSymbol(ticker))
  {
    FutureTests(ticker);
    var base := Instrument(ticker, Some(expiry), weekly, monthly, false, None, None, "", "");
    var afterOption :=
      if !IsOption(ticker) then Success(base)
      else
        match OptionStrikeFromTicker(ticker)
        case Failure(e) => Failure(NotAnOptionSymbol(e))
        case Success(parts) =>
          match ParseInt(parts[1], Bits32)
          case None => Failure(StrikeOutOfRange(parts[1]))
          case Some(strike) =>
            match newInstrumentType(parts[2])
            case None => Failure(UnknownInstrumentType(parts[2]))
            case Some(kind) =>
              Success(base.(Symbol := parts[0], Strike := Some(strike), InstrumentType := kind,
                            LotSize := Some(LotSize)));
    match afterOption
    case Failure(e) => Failure(e)
    case Success(inst) =>
      var afterFuture :=
        if !IsFuture(ticker) then Success(inst)
        else
          match SymbolFromFut(ticker)
          case None => Failure(NoFutureSymbol(ticker))
          case Some(sym) => Success(inst.(Symbol := sym, InstrumentType := "FUT", LotSize := Some(LotSize)));
      match afterFuture
      case Failure(e) => Failure(e)
      case Success(i) =>
        Success(i.(Underlying := FindUnderlyingFromSymbol(i.Symbol), IsSpot := IsSpot(ticker, oi, volume)))
  }

  /** An option gets its letter prefix as Symbol, its strike, the type
      NewInstrumentType gives for CE/PE and a lot size of 50; a strike that
      does not fit in 32 bits is an error. */
  lemma DeriveOption(p: Tickers.OptionParts, oi: real, volume: real, expiry: int, weekly: bool, monthly: bool,
                     newInstrumentType: string -> Option<string>)
    requires Tickers.OptionShaped(p) && newInstrumentType(p.kind).Some?
    ensures var r := DeriveInstrument(p.symbol + p.strike + p.kind, oi, volume, expiry, weekly, monthly, newInstrumentType);
            if DecimalValue(p.strike) <= MaxInt(Bits32) then
              r == Success(Instrument(p.symbol, Some(expiry), weekly, monthly, false, Some(DecimalValue(p.strike)),
                                      Some(LotSize), FindUnderlyingFromSymbol(p.symbol),
                                      newInstrumentType(p.kind).value))
            else r == Failure(StrikeOutOfRange(p.strike))
  {
    var t := p.symbol + p.strike + p.kind;
    OptionStrikeRoundTrip(p);
    FutureTests(t);
  }

  /** An option whose strike fits in 32 bits but whose CE/PE suffix
      NewInstrumentType rejects is an error naming that suffix. */
  lemma DeriveOptionUnknownKind(p: Tickers.OptionParts, oi: real, volume: real, expiry: int, weekly: bool,
                                monthly: bool, newInstrumentType: string -> Option<string>)
    requires Tickers.OptionShaped(p) && newInstrumentType(p.kind).None?
    requires DecimalValue(p.strike) <= MaxInt(Bits32)
    ensures DeriveInstrument(p.symbol + p.strike + p.kind, oi, volume, expiry, weekly, monthly, newInstrumentType)
              == Failure(UnknownInstrumentType(p.kind))
  {
    OptionStrikeRoundTrip(p);
    FutureTests(p.symbol + p.strike + p.kind);
  }

  /** `L-FUT` is a future with Symbol L, type FUT and lot size 50. */
  lemma DeriveFuture(l: string, oi: real, volume: real, expiry: int, weekly: bool, monthly: bool,
                     newInstrumentType: string -> Option<string>)
    requires l != [] && AllUpper(l)
    ensures DeriveInstrument(l + "-FUT", oi, volume, expiry, weekly, monthly, newInstrumentType)
              == Success(Instrument(l, Some(expiry), weekly, monthly, false, None, Some(LotSize),
                                    FindUnderlyingFromSymbol(l), "FUT"))
  {
    var t := l + "-FUT";
    Tickers.FutureMatchExact(t, l);
    FutureTests(t);
  }

  /** Anything else keeps its ticker as Symbol, has no type, strike or lot
      size, and is spot when it has neither open interest nor volume. */
  lemma DeriveOther(ticker: string, oi: real, volume: real, expiry: int, weekly: bool, monthly: bool,
                    newInstrumentType: string -> Option<string>)
    requires !IsDerivative(ticker)
    ensures DeriveInstrument(ticker, oi, volume, expiry, weekly, monthly, newInstrumentType)
              == Success(Instrument(ticker, Some(expiry), weekly, monthly, oi == 0.0 && volume == 0.0, None, None,
                                    FindUnderlyingFromSymbol(ticker), ""))
  {
  }

  /** A weekly option keeps the WK in its Symbol, so its Underlying is
      NIFTYWK rather than NIFTY. */
  lemma WeeklyOptionUnderlying(newInstrumentType: string -> Option<string>)
    requires newInstrumentType("PE").Some?
    ensures var r := DeriveInstrument("NIFTYWK13500PE", 0.0, 0.0, 0, true, false, newInstrumentType);
            r.Success? && r.value.Symbol == "NIFTYWK" && r.value.Underlying == "NIFTYWK"
            && r.value.Strike == Some(13500)
  {
    var p := Tickers.OptionParts("NIFTYWK", "13500", "PE");
    assert p.symbol + p.strike + p.kind == "NIFTYWK13500PE";
    assert AllUpper("NIFTYWK") && AllDigits("13500");
    assert DecimalValue("13500") == 13500 by {
      assert "13500"[..4] == "1350" && "1350"[..3] == "135" && "135"[..2] == "13" && "13"[..1] == "1";
      assert "1"[..0] == "";
    }
    DeriveOption(p, 0.0, 0.0, 0, true, false, newInstrumentType);
    UnderlyingExamples();
  }

  /** A dated future passes the suffix test but not symbolFromFut. */
  lemma DatedFutureFails(newInstrumentType: string -> Option<string>)
    ensures DeriveInstrument("NIFTY22MARFUT", 0.0, 0.0, 0, false, true, newInstrumentType)
              == Failure(NoFutureSymbol("NIFTY22MARFUT"))
  {
    DatedFuture();
    FutureTests("NIFTY22MARFUT");
  }
}
