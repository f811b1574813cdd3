/**
  Numeric cleaning of captured amounts (`parse_float`) and Python's
  `round` on the ratio used to recover a quantity. Floats are modelled as
  reals, so IEEE-754 rounding is not part of the model.
 */
module Numbers {
  import opened Wrappers
  import opened Text

  predicate AllDigits(s: string)
  {
    forall k :: 0 <= k < |s| ==> IsDigit(s[k])
  }

  predicate HasDigit(s: string)
  {
    exists k :: 0 <= k < |s| && IsDigit(s[k])
  }

  function DigitValue(c: char): nat
    requires IsDigit(c)
  {
    c as int - '0' as int
  }

  /** The value of a string of decimal digits, most significant first. */
  function NatValue(ds: string): nat
    requires AllDigits(ds)
    decreases |ds|
  {
    if |ds| == 0 then 0 else 10 * NatValue(ds[..|ds| - 1]) + DigitValue(ds[|ds| - 1])
  }

  function Pow10(n: nat): (p: nat)
    ensures p >= 1
  {
    if n == 0 then 1 else 10 * Pow10(n - 1)
  }

  /** `10 ** e` as a real, for an exponent of either sign. */
  function Scale(e: int): real
  {
    if e >= 0 then Pow10(e) as real else 1.0 / Pow10(-e) as real
  }

  lemma {:induction false} NatValueAppend(a: string, b: string)
    requires AllDigits(a) && AllDigits(b)
    ensures AllDigits(a + b)
    ensures NatValue(a + b) == NatValue(a) * Pow10(|b|) + NatValue(b)
    decreases |b|
  {
    assert AllDigits(a + b);
    if |b| > 0 {
      var b' := b[..|b| - 1];
      var d := DigitValue(b[|b| - 1]);
      assert (a + b)[..|a + b| - 1] == a + b';
      assert NatValue(a + b) == 10 * NatValue(a + b') + d;
      NatValueAppend(a, b');
      assert NatValue(b) == 10 * NatValue(b') + d;
      ShiftDigit(NatValue(a), Pow10(|b'|), NatValue(b'), d);
    } else {
      assert a + b == a;
    }
  }

  lemma ShiftDigit(x: nat, p: nat, y: nat, d: nat)
    ensures 10 * (x * p + y) + d == x * (10 * p) + (10 * y + d)
  {
  }

  /** The characters `parse_float` deletes before converting: `$ , € £ ( )`. */
  predicate IsStrippedSymbol(c: char)
  {
    c == '$' || c == ',' || c == '\U{20AC}' || c == '\U{00A3}' || c == '(' || c == ')'
  }

  /**
    The `re.sub(r'[$,€£()]', '', value).replace(',', '')` step: every
    stripped symbol is deleted and every other character is kept in order.
   */
  function RemoveSymbols(s: string): (r: string)
    ensures |r| <= |s|
    ensures forall k :: 0 <= k < |r| ==> !IsStrippedSymbol(r[k])
    ensures (forall k :: 0 <= k < |s| ==> !IsStrippedSymbol(s[k])) ==> r == s
  {
    if |s| == 0 then ""
    else if IsStrippedSymbol(s[0]) then RemoveSymbols(s[1..])
    else
      var rest := RemoveSymbols(s[1..]);
      assert forall k :: 0 < k < |[s[0]] + rest| ==> ([s[0]] + rest)[k] == rest[k - 1];
      assert [s[0]] + s[1..] == s;
      [s[0]] + rest
  }

  lemma {:induction false} RemoveSymbolsAppend(a: string, b: string)
    ensures RemoveSymbols(a + b) == RemoveSymbols(a) + RemoveSymbols(b)
    decreases |a|
  {
    if |a| > 0 {
      assert (a + b)[1..] == a[1..] + b;
      RemoveSymbolsAppend(a[1..], b);
    } else {
      assert a + b == b;
    }
  }

  /** Index of the first character of `s` that belongs to `cs`. */
  function IndexOfAny(s: string, cs: set<char>): (r: Option<nat>)
    ensures r.None? ==> forall k :: 0 <= k < |s| ==> s[k] !in cs
    ensures r.Some? ==> r.value < |s| && s[r.value] in cs
    ensures r.Some? ==> forall k :: 0 <= k < r.value ==> s[k] !in cs
    decreases |s|
  {
    if |s| == 0 then None
    else if s[0] in cs then Some(0)
    else match IndexOfAny(s[1..], cs)
      case None => None
      case Some(i) => Some(i + 1)
  }

  /** Python `float()` on the part before any exponent: digits with at most one `.`, at least one digit. */
  function ParseMantissa(m: string): Option<real>
  {
    match IndexOfAny(m, {'.'})
    case None => if |m| > 0 && AllDigits(m) then Some(NatValue(m) as real) else None
    case Some(d) =>
      var whole, frac := m[..d], m[d + 1..];
      if |whole| + |frac| > 0 && AllDigits(whole) && AllDigits(frac)
      then Some(NatValue(whole) as real + NatValue(frac) as real / Pow10(|frac|) as real)
      else None
  }

  /** Python `float()` on an exponent: an optional sign and at least one digit. */
  function ParseExponent(x: string): Option<int>
  {
    if |x| > 0 && (x[0] == '+' || x[0] == '-') then
      if |x| > 1 && AllDigits(x[1..]) then
        Some(if x[0] == '-' then -(NatValue(x[1..]) as int) else NatValue(x[1..]))
      else None
    else if |x| > 0 && AllDigits(x) then Some(NatValue(x))
    else None
  }

  function ParseUnsigned(u: string): Option<real>
  {
    match IndexOfAny(u, {'e', 'E'})
    case None => ParseMantissa(u)
    case Some(e) =>
      match (ParseMantissa(u[..e]), ParseExponent(u[e + 1..]))
      case (Some(m), Some(x)) => Some(m * Scale(x))
      case _ => None
  }

  /**
    Python's `float(t)` for a string that has already been stripped; a
    `ValueError` is `None`.
   */
  function ParseNumber(t: string): Option<real>
  {
    if |t| > 0 && (t[0] == '+' || t[0] == '-') then
      match ParseUnsigned(t[1..])
      case None => None
      case Some(v) => Some(if t[0] == '-' then -v else v)
    else ParseUnsigned(t)
  }

  lemma MantissaNeedsDigit(m: string)
    ensures ParseMantissa(m).Some? ==> HasDigit(m)
  {
    match IndexOfAny(m, {'.'})
    case None =>
      if ParseMantissa(m).Some? {
        assert IsDigit(m[0]);
      }
    case Some(d) =>
      if ParseMantissa(m).Some? {
        if d > 0 {
          assert IsDigit(m[..d][0]);
        } else {
          assert IsDigit(m[d + 1..][0]);
        }
      }
  }

  lemma NumberNeedsDigit(t: string)
    ensures ParseNumber(t).Some? ==> HasDigit(t)
  {
    var u := if |t| > 0 && (t[0] == '+' || t[0] == '-') then t[1..] else t;
    match IndexOfAny(u, {'e', 'E'})
    case None =>
      MantissaNeedsDigit(u);
    case Some(e) =>
      MantissaNeedsDigit(u[..e]);
    if HasDigit(u) {
      var k :| 0 <= k < |u| && IsDigit(u[k]);
      assert IsDigit(t[k + |t| - |u|]);
    }
  }

  /**
    `parse_float`: an empty input is `None`; otherwise the symbols
    `$ , € £ ( )` are deleted, surrounding whitespace is stripped and the
    rest is converted by `float`, a conversion failure giving `None`. A
    value is only ever produced from an input that holds a digit.
   */
  function ParseFloat(value: string): (r: Option<real>)
    ensures value == "" ==> r == None
    ensures r.Some? ==> HasDigit(value)
  {
    if value == "" then None
    else
      var cleaned := Strip(RemoveSymbols(value));
      NumberNeedsDigit(cleaned);
      CleaningKeepsDigits(value);
      ParseNumber(cleaned)
  }

  lemma CleaningKeepsDigits(value: string)
    ensures HasDigit(Strip(RemoveSymbols(value))) ==> HasDigit(value)
  {
    StripKeepsDigit(RemoveSymbols(value));
    RemoveSymbolsKeepsDigit(value);
  }

  lemma StripKeepsDigit(s: string)
    ensures HasDigit(Strip(s)) ==> HasDigit(s)
  {
    if HasDigit(Strip(s)) {
      var t := Strip(s);
      var k :| 0 <= k < |t| && IsDigit(t[k]);
      var c := t[k];
      assert c in t && !IsSpace(c);
      StripKeepsChar(s, c);
      var j :| 0 <= j < |s| && s[j] == c;
      assert IsDigit(s[j]);
    }
  }

  lemma {:induction false} RemoveSymbolsKeepsDigit(s: string)
    ensures HasDigit(RemoveSymbols(s)) ==> HasDigit(s)
    decreases |s|
  {
    if |s| > 0 {
      RemoveSymbolsKeepsDigit(s[1..]);
      if HasDigit(s[1..]) {
        var k :| 0 <= k < |s[1..]| && IsDigit(s[1..][k]);
        assert IsDigit(s[k + 1]);
      }
      if HasDigit(RemoveSymbols(s)) && !HasDigit(s[1..]) {
        var k :| 0 <= k < |RemoveSymbols(s)| && IsDigit(RemoveSymbols(s)[k]);
        assert !IsStrippedSymbol(s[0]) && k == 0;
        assert IsDigit(s[0]);
      }
    }
  }

  lemma StripKeepsChar(s: string, c: char)
    requires c in Strip(s) && !IsSpace(c)
    ensures c in s
  {
    NonSpaceMember(Strip(s), c);
    NonSpaceMember(s, c);
  }

  /** Deleting the symbols keeps exactly the other characters. */
  lemma {:induction false} RemoveSymbolsMember(s: string, c: char)
    ensures c in RemoveSymbols(s) <==> c in s && !IsStrippedSymbol(c)
    decreases |s|
  {
    if |s| > 0 {
      RemoveSymbolsMember(s[1..], c);
      assert s == [s[0]] + s[1..];
    }
  }

  // ---------------------------------------------------------------------
  // Reference reading of an amount written with digits, `,` and `.`.

  predicate IsAmountChar(c: char)
  {
    IsDigit(c) || c == ',' || c == '.'
  }

  /** The digits of `s` in order, every other character dropped. */
  function DigitChars(s: string): (ds: string)
    ensures AllDigits(ds)
  {
    if |s| == 0 then ""
    else if IsDigit(s[0]) then [s[0]] + DigitChars(s[1..])
    else DigitChars(s[1..])
  }

  function DotCount(s: string): nat
  {
    if |s| == 0 then 0 else (if s[0] == '.' then 1 else 0) + DotCount(s[1..])
  }

  /** Number of digits after the first `.` of `s` (zero when there is none). */
  function FractionDigits(s: string): nat
  {
    if |s| == 0 then 0
    else if s[0] == '.' then |DigitChars(s[1..])|
    else FractionDigits(s[1..])
  }

  /**
    The decimal an amount such as `1,234.50` denotes: its digits read as a
    whole number, scaled down by the digits after the point; thousands
    separators carry no value.
   */
  function DecimalValue(s: string): real
  {
    NatValue(DigitChars(s)) as real / Pow10(FractionDigits(s)) as real
  }

  lemma {:induction false} DigitCharsAppend(a: string, b: string)
    ensures DigitChars(a + b) == DigitChars(a) + DigitChars(b)
    decreases |a|
  {
    if |a| > 0 {
      assert (a + b)[1..] == a[1..] + b;
      DigitCharsAppend(a[1..], b);
    } else {
      assert a + b == b;
    }
  }

  lemma {:induction false} DigitCharsOfDigits(s: string)
    requires AllDigits(s)
    ensures DigitChars(s) == s
    decreases |s|
  {
    if |s| > 0 {
      DigitCharsOfDigits(s[1..]);
      assert [s[0]] + s[1..] == s;
    }
  }

  lemma {:induction false} DotCountZero(s: string)
    ensures DotCount(s) == 0 <==> '.' !in s
    decreases |s|
  {
    if |s| > 0 {
      DotCountZero(s[1..]);
      assert s == [s[0]] + s[1..];
    }
  }

  lemma {:induction false} DotCountAppend(a: string, b: string)
    ensures DotCount(a + b) == DotCount(a) + DotCount(b)
    decreases |a|
  {
    if |a| > 0 {
      assert (a + b)[1..] == a[1..] + b;
      DotCountAppend(a[1..], b);
    } else {
      assert a + b == b;
    }
  }

  lemma {:induction false} FractionDigitsAfterPlain(a: string, b: string)
    requires '.' !in a
    ensures FractionDigits(a + b) == FractionDigits(b)
    decreases |a|
  {
    if |a| > 0 {
      assert (a + b)[1..] == a[1..] + b;
      FractionDigitsAfterPlain(a[1..], b);
    } else {
      assert a + b == b;
    }
  }

  /** Deleting the stripped symbols leaves the digits, the points and the fraction length unchanged. */
  lemma {:induction false} RemoveSymbolsKeepsDecimal(s: string)
    ensures DigitChars(RemoveSymbols(s)) == DigitChars(s)
    ensures DotCount(RemoveSymbols(s)) == DotCount(s)
    ensures FractionDigits(RemoveSymbols(s)) == FractionDigits(s)
    decreases |s|
  {
    if |s| > 0 {
      RemoveSymbolsKeepsDecimal(s[1..]);
      var r := RemoveSymbols(s);
      if !IsStrippedSymbol(s[0]) {
        assert r[0] == s[0] && r[1..] == RemoveSymbols(s[1..]);
      }
    }
  }

  predicate DigitsAndPoints(r: string)
  {
    forall k :: 0 <= k < |r| ==> IsDigit(r[k]) || r[k] == '.'
  }

  lemma {:induction false} FractionDigitsNoPoint(s: string)
    requires '.' !in s
    ensures FractionDigits(s) == 0
    decreases |s|
  {
    if |s| > 0 {
      assert s == [s[0]] + s[1..];
      FractionDigitsNoPoint(s[1..]);
    }
  }

  lemma NoPointInDigits(r: string)
    requires AllDigits(r)
    ensures '.' !in r
  {
    forall k | 0 <= k < |r|
      ensures r[k] != '.'
    {
      assert IsDigit(r[k]);
    }
  }

  /** Without a point, the decimal value of a digit string is its whole-number value. */
  lemma PlainDecimalValue(r: string)
    requires AllDigits(r)
    ensures DecimalValue(r) == NatValue(r) as real
  {
    DigitCharsOfDigits(r);
    NoPointInDigits(r);
    FractionDigitsNoPoint(r);
    var n, p := NatValue(DigitChars(r)), Pow10(FractionDigits(r));
    assert p == 1;
    OverOne(n as real, p);
    assert n == NatValue(r);
  }

  lemma OverOne(x: real, p: nat)
    requires p == 1
    ensures x / p as real == x
  {
  }

  lemma MantissaWithoutPoint(r: string)
    requires DigitsAndPoints(r) && IndexOfAny(r, {'.'}).None?
    ensures ParseMantissa(r).Some? <==> HasDigit(r) && DotCount(r) <= 1
    ensures ParseMantissa(r).Some? ==> ParseMantissa(r).value == DecimalValue(r)
  {
    assert AllDigits(r);
    PlainDecimalValue(r);
    assert DotCount(r) == 0 by {
      DotCountZero(r);
    }
    assert HasDigit(r) <==> |r| > 0 by {
      if |r| > 0 {
        assert IsDigit(r[0]);
      }
    }
  }

  lemma MantissaWithPoint(r: string, d: nat)
    requires DigitsAndPoints(r) && IndexOfAny(r, {'.'}) == Some(d)
    ensures ParseMantissa(r).Some? <==> HasDigit(r) && DotCount(r) <= 1
    ensures ParseMantissa(r).Some? ==> ParseMantissa(r).value == DecimalValue(r)
  {
    var whole, frac := r[..d], r[d + 1..];
    assert r == whole + ("." + frac);
    assert AllDigits(whole);
    assert DigitsAndPoints(frac);
    PointedDotCount(whole, frac);
    if AllDigits(frac) {
      FractionOfPointed(whole, frac);
      HasDigitOfPointed(r, d);
    }
  }

  lemma PointedDotCount(whole: string, frac: string)
    requires AllDigits(whole) && DigitsAndPoints(frac)
    ensures DotCount(whole + ("." + frac)) <= 1 <==> AllDigits(frac)
  {
    assert '.' !in whole;
    DotCountZero(whole);
    DotCountAppend(whole, "." + frac);
    DotCountAppend(".", frac);
    DotCountZero(frac);
  }

  lemma FractionOfPointed(whole: string, frac: string)
    requires AllDigits(whole) && AllDigits(frac)
    ensures DecimalValue(whole + ("." + frac))
         == NatValue(whole) as real + NatValue(frac) as real / Pow10(|frac|) as real
  {
    var r := whole + ("." + frac);
    PointedDigits(whole, frac);
    PointedFraction(whole, frac);
    NatValueAppend(whole, frac);
    DecimalSplit(NatValue(whole + frac), NatValue(whole), NatValue(frac), Pow10(|frac|));
  }

  lemma PointedDigits(whole: string, frac: string)
    requires AllDigits(whole) && AllDigits(frac)
    ensures DigitChars(whole + ("." + frac)) == whole + frac
  {
    DigitCharsAppend(whole, "." + frac);
    DigitCharsAppend(".", frac);
    DigitCharsOfDigits(whole);
    DigitCharsOfDigits(frac);
  }

  lemma PointedFraction(whole: string, frac: string)
    requires AllDigits(whole) && AllDigits(frac)
    ensures FractionDigits(whole + ("." + frac)) == |frac|
  {
    var tail := "." + frac;
    assert '.' !in whole;
    FractionDigitsAfterPlain(whole, tail);
    assert tail[1..] == frac;
    DigitCharsOfDigits(frac);
  }

  lemma HasDigitOfPointed(r: string, d: nat)
    requires d < |r| && r[d] == '.'
    requires AllDigits(r[..d]) && AllDigits(r[d + 1..])
    ensures HasDigit(r) <==> |r[..d]| + |r[d + 1..]| > 0
  {
    if HasDigit(r) {
      var k :| 0 <= k < |r| && IsDigit(r[k]);
      assert k != d;
    }
    if d > 0 {
      assert IsDigit(r[0]);
    } else if |r[d + 1..]| > 0 {
      assert IsDigit(r[d + 1]);
    }
  }

  /** The mantissa parser on digits and points agrees with the reference reading. */
  lemma MantissaOfDecimal(r: string)
    requires DigitsAndPoints(r)
    ensures ParseMantissa(r).Some? <==> HasDigit(r) && DotCount(r) <= 1
    ensures ParseMantissa(r).Some? ==> ParseMantissa(r).value == DecimalValue(r)
  {
    match IndexOfAny(r, {'.'})
    case None => MantissaWithoutPoint(r);
    case Some(d) => MantissaWithPoint(r, d);
  }

  lemma DecimalSplit(n: nat, w: nat, f: nat, p: nat)
    requires p >= 1 && n == w * p + f
    ensures n as real / p as real == w as real + f as real / p as real
  {
    assert n as real == w as real * p as real + f as real;
  }

  /**
    For a captured amount made of digits, `,` and `.` (the shape every
    amount capture of the extractor has), `parse_float` succeeds exactly
    when there is a digit and at most one `.`, and then yields the decimal
    the digits denote with the commas ignored.
   */
  lemma DecimalCapture(s: string)
    requires forall k :: 0 <= k < |s| ==> IsAmountChar(s[k])
    ensures ParseFloat(s).Some? <==> HasDigit(s) && DotCount(s) <= 1
    ensures ParseFloat(s).Some? ==> ParseFloat(s).value == DecimalValue(s)
  {
    var r := RemoveSymbols(s);
    RemoveSymbolsKeepsDecimal(s);
    CleanedAmountIsDecimal(s);
    MantissaOfDecimal(r);
    HasDigitOfDigitChars(r);
    HasDigitOfDigitChars(s);
    if |s| == 0 {
      assert !HasDigit(s);
    } else {
      assert ParseFloat(s) == ParseNumber(r);
    }
  }

  /** On an amount capture, cleaning only drops commas, and `float` sees an unsigned mantissa. */
  lemma CleanedAmountIsDecimal(s: string)
    requires forall k :: 0 <= k < |s| ==> IsAmountChar(s[k])
    ensures DigitsAndPoints(RemoveSymbols(s))
    ensures Strip(RemoveSymbols(s)) == RemoveSymbols(s)
    ensures ParseNumber(RemoveSymbols(s)) == ParseMantissa(RemoveSymbols(s))
  {
    var r := RemoveSymbols(s);
    forall k | 0 <= k < |r|
      ensures IsDigit(r[k]) || r[k] == '.'
    {
      RemoveSymbolsMember(s, r[k]);
    }
    DecimalIsTrimmed(r);
    DecimalHasNoExponent(r);
  }

  lemma DecimalIsTrimmed(r: string)
    requires DigitsAndPoints(r)
    ensures Strip(r) == r
  {
    if |r| > 0 {
      assert !IsSpace(r[0]) && !IsSpace(r[|r| - 1]);
    }
  }

  lemma DecimalHasNoExponent(r: string)
    requires DigitsAndPoints(r)
    ensures ParseNumber(r) == ParseMantissa(r)
  {
    var x := IndexOfAny(r, {'e', 'E'});
    if x.Some? {
      assert false;
    }
  }

  lemma {:induction false} HasDigitOfDigitChars(s: string)
    ensures HasDigit(s) <==> |DigitChars(s)| > 0
    decreases |s|
  {
    if |s| > 0 {
      HasDigitOfDigitChars(s[1..]);
      if HasDigit(s[1..]) {
        var k :| 0 <= k < |s[1..]| && IsDigit(s[1..][k]);
        assert IsDigit(s[k + 1]);
      }
      if HasDigit(s) && !IsDigit(s[0]) {
        var k :| 0 <= k < |s| && IsDigit(s[k]);
        assert IsDigit(s[1..][k - 1]);
      }
    }
  }

  /**
    Parentheses are deleted, not read as a negative sign: an amount in
    parentheses cleans to the same value as the bare amount.
   */
  lemma ParenthesesDoNotNegate(s: string)
    ensures ParseFloat("(" + s + ")") == ParseFloat(s)
  {
    RemoveSymbolsAppend("(" + s, ")");
    RemoveSymbolsAppend("(", s);
    assert RemoveSymbols("(") == "";
    assert RemoveSymbols(")") == "";
    assert RemoveSymbols("(" + s + ")") == RemoveSymbols(s);
    if s == "" {
      assert Strip("") == "";
      assert IndexOfAny("", {'e', 'E'}) == None;
      assert IndexOfAny("", {'.'}) == None;
    }
  }

  // ---------------------------------------------------------------------
  // Python's round() on a real.

  /**
    `n` is a nearest integer to `x`, ties going to the even neighbour:
    the rounding Python's `round` applies.
   */
  predicate IsRoundHalfEven(x: real, n: int)
  {
    && -0.5 <= n as real - x <= 0.5
    && ((n as real - x == 0.5 || n as real - x == -0.5) ==> n % 2 == 0)
  }

  function RoundHalfEven(x: real): (n: int)
    ensures IsRoundHalfEven(x, n)
  {
    var f := x.Floor;
    var d := x - f as real;
    if d < 0.5 then f
    else if d > 0.5 then f + 1
    else if f % 2 == 0 then f
    else f + 1
  }

  /** At most one integer rounds `x` half-to-even, so the rounding is determined. */
  lemma RoundHalfEvenUnique(x: real, n: int, m: int)
    requires IsRoundHalfEven(x, n) && IsRoundHalfEven(x, m)
    ensures n == m
  {
  }
}
