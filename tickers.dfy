/** Ticker classification (tickers/ticker_utils.go): a raw symbol is a
    future (`^([A-Z]+)-FUT$`), an option (`^([A-Z]+)([0-9]+)(CE|PE)$`) or,
    failing both, a spot instrument. The two regular expressions are written
    as recognisers that also return the capture groups. */
module Tickers {
  import opened Wrappers
  import opened Text

  /** The capture groups of the option expression: letters, digits, CE/PE. */
  datatype OptionParts = OptionParts(symbol: string, strike: string, kind: string)

  /** Ticker, with the field names of the Go struct. */
  datatype Ticker = Ticker(
    RawTicker: string,
    Underlying: string,
    IsFuture: bool,
    IsOption: bool,
    IsSpot: bool,
    Strike: int,
    InstrumentType: string)

  datatype TickerError =
    | NotAnOption(symbol: string)        // parseOptions / symbolFromOptions
    | StrikeOutOfRange(strike: string)   // strconv.ParseInt(strike, 10, 32)

  predicate IsOptionKind(k: string) { k == "CE" || k == "PE" }

  /** Length of the leading run of upper-case letters. */
  function LetterRun(s: string): (n: nat)
    ensures n <= |s| && AllUpper(s[..n])
    ensures n < |s| ==> !IsUpper(s[n])
  {
    if s == [] || !IsUpper(s[0]) then 0
    else
      var m := LetterRun(s[1..]);
      assert s[..m + 1] == [s[0]] + s[1..][..m];
      m + 1
  }

  /** optionsRegex.FindStringSubmatch: the three groups, or None when the
      whole string does not match. */
  function OptionMatch(s: string): Option<OptionParts>
  {
    if |s| < 2 then None
    else
      var kind := s[|s| - 2..];
      var body := s[..|s| - 2];
      var n := LetterRun(body);
      if !IsOptionKind(kind) || n == 0 || n == |body| || !AllDigits(body[n..]) then None
      else Some(OptionParts(body[..n], body[n..], kind))
  }

  /** futureRegex.FindStringSubmatch: the letters before `-FUT`. */
  function FutureMatch(s: string): Option<string>
  {
    if |s| >= 5 && s[|s| - 4..] == "-FUT" && AllUpper(s[..|s| - 4]) then Some(s[..|s| - 4])
    else None
  }

  predicate IsOption(s: string) { OptionMatch(s).Some? }

  predicate IsFuture(s: string) { FutureMatch(s).Some? }

  /** What the option expression accepts, stated on its three groups. */
  predicate OptionShaped(p: OptionParts)
  {
    p.symbol != [] && AllUpper(p.symbol) && p.strike != [] && AllDigits(p.strike) && IsOptionKind(p.kind)
  }

  /** The option recogniser accepts exactly the strings that are letters,
      then digits, then CE or PE, and returns those three pieces. */
  lemma OptionMatchSound(s: string)
    requires OptionMatch(s).Some?
    ensures var p := OptionMatch(s).value; OptionShaped(p) && s == p.symbol + p.strike + p.kind
  {
    var p := OptionMatch(s).value;
    var body := s[..|s| - 2];
    var n := LetterRun(body);
    assert body == body[..n] + body[n..];
    assert s == body + s[|s| - 2..];
  }

  lemma OptionMatchComplete(p: OptionParts)
    requires OptionShaped(p)
    ensures OptionMatch(p.symbol + p.strike + p.kind) == Some(p)
  {
    var s := p.symbol + p.strike + p.kind;
    var body := s[..|s| - 2];
    assert body == p.symbol + p.strike;
    assert s[|s| - 2..] == p.kind;
    LetterRunOfLettersThenDigits(p.symbol, p.strike);
    assert body[..|p.symbol|] == p.symbol;
    assert body[|p.symbol|..] == p.strike;
  }

  lemma {:induction false} LetterRunOfLettersThenDigits(l: string, d: string)
    requires AllUpper(l) && d != [] && AllDigits(d)
    ensures LetterRun(l + d) == |l|
  {
    if l == [] {
      assert (l + d)[0] == d[0];
    } else {
      assert (l + d)[1..] == l[1..] + d;
      LetterRunOfLettersThenDigits(l[1..], d);
    }
  }

  /** The future recogniser accepts exactly `L-FUT` with L a non-empty run of
      upper-case letters, and returns L. */
  lemma FutureMatchExact(s: string, l: string)
    ensures FutureMatch(s) == Some(l) <==> (s == l + "-FUT" && l != [] && AllUpper(l))
  {
    if s == l + "-FUT" {
      assert s[..|s| - 4] == l;
      assert s[|s| - 4..] == "-FUT";
    }
    if FutureMatch(s) == Some(l) {
      assert s == s[..|s| - 4] + s[|s| - 4..];
    }
  }

  /** No string is both a future and an option: one ends in T, the other in E. */
  lemma FutureAndOptionDisjoint(s: string)
    ensures !(IsFuture(s) && IsOption(s))
  {
  }

  /** cleanTicker: the weekly marker in `NIFTYWK...` is dropped, so weekly and
      monthly option symbols share the underlying NIFTY. */
  function CleanTicker(s: string): (r: string)
    ensures r == s <==> !Contains(s, "NIFTYWK")
    ensures |s| - |r| == 2 * Occurrences(s, "NIFTYWK")
  {
    ReplaceAllIdentity(s, "NIFTYWK", "NIFTY");
    ReplaceAllLength(s, "NIFTYWK", "NIFTY");
    ReplaceAll(s, "NIFTYWK", "NIFTY")
  }

  /** A leading NIFTYWK becomes NIFTY, and the rest is cleaned on its own. */
  lemma CleanWeeklyPrefix(x: string)
    ensures CleanTicker("NIFTYWK" + x) == "NIFTY" + CleanTicker(x)
  {
    ReplaceAllLeading("NIFTYWK", x, "NIFTY");
  }

  /** Cleaning keeps a symbol an option, with the same strike and type, and
      only the letter prefix rewritten. */
  lemma CleanKeepsOptionShape(s: string)
    requires IsOption(s)
    ensures var p := OptionMatch(s).value;
            OptionMatch(CleanTicker(s)) == Some(OptionParts(CleanTicker(p.symbol), p.strike, p.kind))
  {
    var p := OptionMatch(s).value;
    OptionMatchSound(s);
    var rest := p.strike + p.kind;
    assert s == p.symbol + rest;
    ReplaceAllSplits(p.symbol, rest, "NIFTYWK", "NIFTY");
    NoMarkerInDigitsAndKind(p.strike, p.kind);
    ReplaceAllAbsent(rest, "NIFTYWK", "NIFTY");
    ReplaceAllKeepsUpper(p.symbol, "NIFTYWK", "NIFTY");
    var q := OptionParts(CleanTicker(p.symbol), p.strike, p.kind);
    assert CleanTicker(s) == q.symbol + q.strike + q.kind;
    OptionMatchComplete(q);
  }

  lemma {:induction false} NoMarkerInDigitsAndKind(d: string, k: string)
    requires AllDigits(d) && IsOptionKind(k)
    ensures !Contains(d + k, "NIFTYWK")
  {
    var s := d + k;
    assert d != [] ==> s[0] == d[0] && IsDigit(s[0]);
    assert d == [] ==> |s| == 2;
    if d != [] {
      assert s[1..] == d[1..] + k;
      NoMarkerInDigitsAndKind(d[1..], k);
    } else {
      assert s == k;
      assert !Contains(k[1..], "NIFTYWK");
    }
  }

  /** symbolFromFut: callers reach it only after IsFuture. */
  function SymbolFromFut(s: string): (l: string)
    requires IsFuture(s)
    ensures s == l + "-FUT" && l != [] && AllUpper(l)
  {
    FutureMatchExact(s, FutureMatch(s).value);
    FutureMatch(s).value
  }

  /** parseOptions: the groups of an option symbol, or an error. */
  function ParseOptions(s: string): (r: Result<OptionParts, TickerError>)
    ensures r.Success? <==> IsOption(s)
    ensures r.Success? ==> OptionShaped(r.value) && s == r.value.symbol + r.value.strike + r.value.kind
  {
    if !IsOption(s) then Failure(NotAnOption(s))
    else
      OptionMatchSound(s);
      Success(OptionMatch(s).value)
  }

  /** symbolFromOptions: the cleaned letter prefix of an option symbol. */
  function SymbolFromOptions(s: string): (r: Result<string, TickerError>)
    ensures r.Success? <==> IsOption(s)
    ensures r.Success? ==> r.value == CleanTicker(OptionMatch(s).value.symbol)
  {
    if !IsOption(s) then Failure(NotAnOption(s))
    else Success(CleanTicker(OptionMatch(s).value.symbol))
  }

  /** UnderlyingFromTicker: futures and options give their (cleaned) letter
      prefix, anything else is its own underlying. The error branch of
      symbolFromOptions cannot be taken after IsOption. */
  function UnderlyingFromTicker(s: string): (u: string)
    ensures IsFuture(s) ==> s == u + "-FUT" && u != [] && AllUpper(u)
    ensures IsOption(s) ==> u == CleanTicker(OptionMatch(s).value.symbol)
    ensures !IsFuture(s) && !IsOption(s) ==> u == s
  {
    FutureAndOptionDisjoint(s);
    if IsFuture(s) then SymbolFromFut(s)
    else if IsOption(s) then
      match SymbolFromOptions(s)
      case Success(sym) => sym
    else s
  }

  /** ParseTicker. The Go function returns an empty Ticker together with the
      error; here that pair is the Failure case. */
  function ParseTicker(input: string): (r: Result<Ticker, TickerError>)
    ensures r.Success? ==> r.value.RawTicker == input
    ensures r.Success? ==> r.value.IsSpot == (!r.value.IsFuture && !r.value.IsOption)
    ensures r.Success? ==> !(r.value.IsFuture && r.value.IsOption)
  {
    FutureAndOptionDisjoint(input);
    var base := Ticker(input, UnderlyingFromTicker(input), IsFuture(input), IsOption(input),
                       !IsFuture(input) && !IsOption(input), 0, "");
    if base.IsOption then
      match ParseOptions(CleanTicker(input))
      case Failure(e) => Failure(e)
      case Success(parts) =>
        match ParseInt(parts.strike, Bits32)
        case None => Failure(StrikeOutOfRange(parts.strike))
        case Some(strike) => Success(base.(Strike := strike, InstrumentType := parts.kind))
    else if base.IsFuture then Success(base.(InstrumentType := "FUT"))
    else Success(base)
  }

  // ---------------------------------------------------------------------
  // What ParseTicker promises
  // ---------------------------------------------------------------------

  /** `L-FUT` is a future on L, with type FUT and no strike. */
  lemma ParseFuture(l: string)
    requires l != [] && AllUpper(l)
    ensures ParseTicker(l + "-FUT") == Success(Ticker(l + "-FUT", l, true, false, false, 0, "FUT"))
  {
    FutureMatchExact(l + "-FUT", l);
    FutureAndOptionDisjoint(l + "-FUT");
  }

  /** `L D CE|PE` is an option on the cleaned L whose strike is the value of
      D, provided D fits in 32 bits; otherwise parsing fails. */
  lemma ParseOption(p: OptionParts)
    requires OptionShaped(p)
    ensures var s := p.symbol + p.strike + p.kind;
            if DecimalValue(p.strike) <= MaxInt(Bits32) then
              ParseTicker(s) == Success(Ticker(s, CleanTicker(p.symbol), false, true, false,
                                               DecimalValue(p.strike), p.kind))
            else ParseTicker(s) == Failure(StrikeOutOfRange(p.strike))
  {
    var s := p.symbol + p.strike + p.kind;
    OptionMatchComplete(p);
    FutureAndOptionDisjoint(s);
    CleanKeepsOptionShape(s);
  }

  /** Anything that is neither a future nor an option is spot, and is its own
      underlying. */
  lemma ParseSpot(s: string)
    requires !IsFuture(s) && !IsOption(s)
    ensures ParseTicker(s) == Success(Ticker(s, s, false, false, true, 0, ""))
  {
  }

  /** The only way ParseTicker fails is an option strike too large for 32
      bits: the not-an-option branch of parseOptions is unreachable, because
      cleaning keeps the option shape. */
  lemma ParseTickerFailsOnlyOnStrike(s: string)
    ensures ParseTicker(s).Failure? <==>
              IsOption(s) && DecimalValue(OptionMatch(s).value.strike) > MaxInt(Bits32)
    ensures ParseTicker(s).Failure? ==> ParseTicker(s).error.StrikeOutOfRange?
  {
    if IsOption(s) {
      OptionMatchSound(s);
      ParseOption(OptionMatch(s).value);
    }
  }

  /** The three kinds partition all symbols that parse. */
  lemma ExactlyOneKind(s: string)
    requires ParseTicker(s).Success?
    ensures var t := ParseTicker(s).value;
            (t.IsFuture && !t.IsOption && !t.IsSpot) ||
            (!t.IsFuture && t.IsOption && !t.IsSpot) ||
            (!t.IsFuture && !t.IsOption && t.IsSpot)
  {
  }

  /** The cases of tickers/ticker_utils_test.go. */
  lemma ParseSpotExample()
    ensures ParseTicker("NIFTY") == Success(Ticker("NIFTY", "NIFTY", false, false, true, 0, ""))
  {
    assert !IsFuture("NIFTY");
    assert !IsOption("NIFTY");
    ParseSpot("NIFTY");
  }

  lemma ParseFutureExample()
    ensures ParseTicker("NIFTY-FUT") == Success(Ticker("NIFTY-FUT", "NIFTY", true, false, false, 0, "FUT"))
  {
    assert "NIFTY" + "-FUT" == "NIFTY-FUT";
    assert AllUpper("NIFTY");
    ParseFuture("NIFTY");
  }

  lemma ParseWeeklyOptionExample()
    ensures ParseTicker("NIFTYWK13500PE") ==
              Success(Ticker("NIFTYWK13500PE", "NIFTY", false, true, false, 13500, "PE"))
  {
    var p := OptionParts("NIFTYWK", "13500", "PE");
    assert p.symbol + p.strike + p.kind == "NIFTYWK13500PE";
    assert DecimalValue("13500") == 13500 by {
      assert "13500"[..4] == "1350" && "1350"[..3] == "135" && "135"[..2] == "13" && "13"[..1] == "1";
      assert "1"[..0] == "";
    }
    assert CleanTicker("NIFTYWK") == "NIFTY" by {
      assert HasPrefix("NIFTYWK", "NIFTYWK");
      assert ReplaceAll("NIFTYWK"[7..], "NIFTYWK", "NIFTY") == [];
    }
    assert OptionShaped(p) by {
      assert AllUpper("NIFTYWK") && AllDigits("13500");
    }
    ParseOption(p);
  }
}
