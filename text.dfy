/** The string and number primitives the Go code takes from its standard
    library (strings and strconv), written out over seq<char>. */
module Text {
  import opened Wrappers

  predicate IsUpper(c: char) { 'A' <= c <= 'Z' }

  predicate IsDigit(c: char) { '0' <= c <= '9' }

  predicate AllUpper(s: string) { forall i :: 0 <= i < |s| ==> IsUpper(s[i]) }

  predicate AllDigits(s: string) { forall i :: 0 <= i < |s| ==> IsDigit(s[i]) }

  /** strings.HasPrefix */
  predicate HasPrefix(s: string, p: string) { |p| <= |s| && s[..|p|] == p }

  /** One differing position rules a prefix out. */
  lemma NotPrefixAt(s: string, p: string, i: nat)
    requires i < |p| && (i < |s| ==> s[i] != p[i])
    ensures !HasPrefix(s, p)
  {
    if |p| <= |s| {
      assert s[..|p|][i] == s[i];
    }
  }

  /** strings.HasSuffix */
  predicate HasSuffix(s: string, p: string) { |p| <= |s| && s[|s| - |p|..] == p }

  /** strings.Contains, as a left-to-right scan. */
  predicate Contains(s: string, p: string)
  {
    HasPrefix(s, p) || (s != [] && Contains(s[1..], p))
  }

  /** strings.ReplaceAll for a non-empty pattern: occurrences are replaced
      left to right and never overlap. */
  function ReplaceAll(s: string, pat: string, sub: string): string
    requires pat != []
  {
    if HasPrefix(s, pat) then sub + ReplaceAll(s[|pat|..], pat, sub)
    else if s == [] then []
    else [s[0]] + ReplaceAll(s[1..], pat, sub)
  }

  /** With no occurrence of the pattern, ReplaceAll changes nothing. */
  lemma {:induction false} ReplaceAllAbsent(s: string, pat: string, sub: string)
    requires pat != [] && !Contains(s, pat)
    ensures ReplaceAll(s, pat, sub) == s
  {
    if s != [] {
      ReplaceAllAbsent(s[1..], pat, sub);
    }
  }

  /** Replacing by something strictly shorter shrinks every string that holds
      an occurrence, and never grows any string. */
  lemma {:induction false} ReplaceAllShrinks(s: string, pat: string, sub: string)
    requires pat != [] && |sub| < |pat|
    ensures |ReplaceAll(s, pat, sub)| <= |s|
    ensures Contains(s, pat) ==> |ReplaceAll(s, pat, sub)| < |s|
  {
    if HasPrefix(s, pat) {
      ReplaceAllShrinks(s[|pat|..], pat, sub);
    } else if s != [] {
      ReplaceAllShrinks(s[1..], pat, sub);
    }
  }

  /** A shortening replacement leaves a string unchanged exactly when the
      pattern does not occur in it. */
  lemma ReplaceAllIdentity(s: string, pat: string, sub: string)
    requires pat != [] && |sub| < |pat|
    ensures ReplaceAll(s, pat, sub) == s <==> !Contains(s, pat)
    ensures |ReplaceAll(s, pat, sub)| <= |s|
  {
    ReplaceAllShrinks(s, pat, sub);
    if !Contains(s, pat) {
      ReplaceAllAbsent(s, pat, sub);
    }
  }

  /** The number of occurrences ReplaceAll rewrites: found left to right,
      never overlapping. */
  function Occurrences(s: string, pat: string): nat
    requires pat != []
  {
    if HasPrefix(s, pat) then 1 + Occurrences(s[|pat|..], pat)
    else if s == [] then 0
    else Occurrences(s[1..], pat)
  }

  /** Each rewritten occurrence changes the length by |sub| - |pat|, and
      there is one exactly when the pattern occurs. */
  lemma {:induction false} ReplaceAllLength(s: string, pat: string, sub: string)
    requires pat != []
    ensures |ReplaceAll(s, pat, sub)| == |s| + Occurrences(s, pat) * (|sub| - |pat|)
    ensures Occurrences(s, pat) > 0 <==> Contains(s, pat)
  {
    if HasPrefix(s, pat) {
      var k := Occurrences(s[|pat|..], pat);
      ReplaceAllLength(s[|pat|..], pat, sub);
      assert (1 + k) * (|sub| - |pat|) == (|sub| - |pat|) + k * (|sub| - |pat|);
    } else if s != [] {
      ReplaceAllLength(s[1..], pat, sub);
    }
  }

  /** A string that starts with the pattern has that occurrence rewritten
      first, and the rest rewritten on its own. */
  lemma ReplaceAllLeading(pat: string, x: string, sub: string)
    requires pat != []
    ensures ReplaceAll(pat + x, pat, sub) == sub + ReplaceAll(x, pat, sub)
  {
    assert (pat + x)[..|pat|] == pat;
    assert (pat + x)[|pat|..] == x;
  }

  /** An upper-case string stays upper case and non-empty when an upper-case
      pattern is replaced by a non-empty upper-case string. */
  lemma {:induction false} ReplaceAllKeepsUpper(s: string, pat: string, sub: string)
    requires pat != [] && sub != [] && AllUpper(sub) && AllUpper(s)
    ensures AllUpper(ReplaceAll(s, pat, sub))
    ensures s != [] ==> ReplaceAll(s, pat, sub) != []
  {
    if HasPrefix(s, pat) {
      ReplaceAllKeepsUpper(s[|pat|..], pat, sub);
    } else if s != [] {
      ReplaceAllKeepsUpper(s[1..], pat, sub);
    }
  }

  /** An all-upper-case pattern cannot straddle a boundary after which the
      next character is not an upper-case letter, so the two sides are
      rewritten independently. */
  lemma {:induction false} ReplaceAllSplits(a: string, b: string, pat: string, sub: string)
    requires pat != [] && AllUpper(pat)
    requires b != [] && !IsUpper(b[0])
    ensures ReplaceAll(a + b, pat, sub) == ReplaceAll(a, pat, sub) + ReplaceAll(b, pat, sub)
  {
    var s := a + b;
    if a == [] {
      assert s == b;
    } else if HasPrefix(s, pat) {
      assert !IsUpper(s[|a|]);
      assert forall i :: 0 <= i < |pat| ==> s[i] == pat[i] && IsUpper(s[i]);
      assert s[..|pat|] == a[..|pat|];
      assert s[|pat|..] == a[|pat|..] + b;
      ReplaceAllSplits(a[|pat|..], b, pat, sub);
    } else {
      assert s[1..] == a[1..] + b;
      ReplaceAllSplits(a[1..], b, pat, sub);
    }
  }

  /** ASCII simple case folding: upper-case letters map to lower case. */
  function Lower(c: char): char
  {
    if IsUpper(c) then (c as int + 32) as char else c
  }

  function Upper(c: char): char
  {
    if 'a' <= c <= 'z' then (c as int - 32) as char else c
  }

  function ToLower(s: string): (r: string)
    ensures |r| == |s| && forall i :: 0 <= i < |s| ==> r[i] == Lower(s[i])
  {
    seq(|s|, i requires 0 <= i < |s| => Lower(s[i]))
  }

  function ToUpper(s: string): (r: string)
    ensures |r| == |s| && forall i :: 0 <= i < |s| ==> r[i] == Upper(s[i])
  {
    seq(|s|, i requires 0 <= i < |s| => Upper(s[i]))
  }

  /** strings.EqualFold restricted to ASCII case folding. */
  predicate EqualFold(a: string, b: string)
  {
    |a| == |b| && forall i :: 0 <= i < |a| ==> Lower(a[i]) == Lower(b[i])
  }

  lemma EqualFoldIsEquivalence(a: string, b: string, c: string)
    ensures EqualFold(a, a)
    ensures EqualFold(a, b) ==> EqualFold(b, a)
    ensures EqualFold(a, b) && EqualFold(b, c) ==> EqualFold(a, c)
  {
  }

  /** Folding either argument to upper or lower case does not change the answer. */
  lemma EqualFoldIgnoresCase(a: string, b: string)
    ensures EqualFold(a, ToUpper(b)) == EqualFold(a, b)
    ensures EqualFold(a, ToLower(b)) == EqualFold(a, b)
  {
    assert forall c :: Lower(Upper(c)) == Lower(c);
    assert forall c :: Lower(Lower(c)) == Lower(c);
  }

  /** Two upper-case strings are equal ignoring case only when they are equal. */
  lemma EqualFoldOfUpper(a: string, b: string)
    requires AllUpper(a) && AllUpper(b)
    ensures EqualFold(a, b) <==> a == b
  {
    if EqualFold(a, b) {
      forall i | 0 <= i < |a| ensures a[i] == b[i] {
        assert Lower(a[i]) == Lower(b[i]);
      }
    }
  }

  // ---------------------------------------------------------------------
  // strconv.ParseInt in base 10
  // ---------------------------------------------------------------------

  function DigitValue(c: char): (v: nat)
    requires IsDigit(c)
    ensures v < 10
  {
    c as int - '0' as int
  }

  function DigitChar(v: nat): (c: char)
    requires v < 10
    ensures IsDigit(c) && DigitValue(c) == v
  {
    ('0' as int + v) as char
  }

  /** The number a run of decimal digits denotes, most significant first. */
  function DecimalValue(s: string): nat
    requires AllDigits(s)
  {
    if s == [] then 0 else 10 * DecimalValue(s[..|s| - 1]) + DigitValue(s[|s| - 1])
  }

  /** The shortest decimal spelling of n (strconv.Itoa for n >= 0). */
  function DecimalString(n: nat): (s: string)
    ensures AllDigits(s) && s != []
  {
    if n < 10 then [DigitChar(n)] else DecimalString(n / 10) + [DigitChar(n % 10)]
  }

  /** Reading back a spelled-out number gives the number. */
  lemma {:induction false} DecimalRoundTrip(n: nat)
    ensures DecimalValue(DecimalString(n)) == n
  {
    var s := DecimalString(n);
    if n >= 10 {
      DecimalRoundTrip(n / 10);
      assert s[..|s| - 1] == DecimalString(n / 10);
    }
  }

  /** Leading zeros do not change the value. */
  lemma {:induction false} LeadingZero(s: string)
    requires AllDigits(s)
    ensures AllDigits("0" + s) && DecimalValue("0" + s) == DecimalValue(s)
  {
    if s != [] {
      var t := "0" + s;
      assert t[..|t| - 1] == "0" + s[..|s| - 1];
      LeadingZero(s[..|s| - 1]);
    }
  }

  /** The integer widths strconv.ParseInt is asked for. */
  datatype BitSize = Bits16 | Bits32 | Bits64

  function MaxInt(b: BitSize): int
  {
    match b
    case Bits16 => 0x7fff
    case Bits32 => 0x7fff_ffff
    case Bits64 => 0x7fff_ffff_ffff_ffff
  }

  /** The digits of a number after its optional leading sign. */
  function Unsigned(s: string): string
  {
    if s != [] && (s[0] == '+' || s[0] == '-') then s[1..] else s
  }

  /** strconv.ParseInt(s, 10, bits): an optional sign, then one or more
      decimal digits, and the value must fit in a signed integer of that
      width; anything else is an error (None). */
  function ParseInt(s: string, bits: BitSize): (r: Option<int>)
    ensures r.Some? <==>
              (s != [] && Unsigned(s) != [] && AllDigits(Unsigned(s)) &&
               -MaxInt(bits) - 1 <= (if s[0] == '-' then -(DecimalValue(Unsigned(s)) as int) else DecimalValue(Unsigned(s)) as int)
                                 <= MaxInt(bits))
    ensures r.Some? ==>
              (s != [] && Unsigned(s) != [] && AllDigits(Unsigned(s)) &&
               r.value == if s[0] == '-' then -(DecimalValue(Unsigned(s)) as int) else DecimalValue(Unsigned(s)) as int)
    ensures r.Some? ==> -MaxInt(bits) - 1 <= r.value <= MaxInt(bits)
    ensures AllDigits(s) && s != [] && DecimalValue(s) <= MaxInt(bits) ==> r == Some(DecimalValue(s))
    ensures AllDigits(s) && s != [] && DecimalValue(s) > MaxInt(bits) ==> r == None
  {
    if s == [] then None
    else
      var body := Unsigned(s);
      if body == [] || !AllDigits(body) then None
      else
        var v := if s[0] == '-' then -(DecimalValue(body) as int) else DecimalValue(body);
        if -MaxInt(bits) - 1 <= v <= MaxInt(bits) then Some(v) else None
  }

  /** strconv.FormatInt(n, 10): a minus sign for negatives, then the digits. */
  function FormatInt(n: int): (s: string)
    ensures s != [] && (n < 0 <==> s[0] == '-')
  {
    if n < 0 then "-" + DecimalString(-n) else DecimalString(n)
  }

  /** Every number in range is read back from its decimal spelling. */
  lemma ParseIntRoundTrip(n: nat, bits: BitSize)
    requires n <= MaxInt(bits)
    ensures ParseInt(DecimalString(n), bits) == Some(n)
  {
    DecimalRoundTrip(n);
  }

  /** Every integer in the signed range of a width, negative ones
      included, is read back from its FormatInt spelling. */
  lemma ParseFormatRoundTrip(n: int, bits: BitSize)
    requires -MaxInt(bits) - 1 <= n <= MaxInt(bits)
    ensures ParseInt(FormatInt(n), bits) == Some(n)
  {
    if n < 0 {
      var d := DecimalString(-n);
      DecimalRoundTrip(-n);
      assert ("-" + d)[1..] == d;
      assert Unsigned("-" + d) == d;
    } else {
      DecimalRoundTrip(n);
      var d := DecimalString(n);
      assert IsDigit(d[0]);
    }
  }
}
