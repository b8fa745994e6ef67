/**
 * The JavaScript `Number(text)` conversion (StringToNumber) over exact reals:
 * surrounding white space is ignored, the empty text is 0, a signed decimal
 * literal with optional fraction and exponent, a signed `Infinity`, or an
 * unsigned `0x`/`0o`/`0b` literal gives its value, and anything else is NaN.
 */
module JsNumber {
  import opened Wrappers
  import opened Strings

  datatype JsNum = Finite(v: real) | Infinite(negative: bool) | NaN
  {
    /** `Number.isFinite`. */
    predicate IsFinite()
    {
      Finite?
    }

    /** `Number.isNaN`. */
    predicate IsNaN()
    {
      NaN?
    }
  }

  /** The bases of the `0x`, `0o` and `0b` literals. */
  datatype Radix = Hex | Oct | Bin
  {
    function Base(): nat
    {
      match this
      case Hex => 16
      case Oct => 8
      case Bin => 2
    }

    /** `n * Base()`, written with a constant factor in each case. */
    function Times(n: nat): (m: nat)
      ensures m == n * Base()
    {
      match this
      case Hex => n * 16
      case Oct => n * 8
      case Bin => n * 2
    }
  }

  /** The digit value of `c` in `radix`, if it is one. */
  function RadixDigit(c: char, radix: Radix): (d: Option<nat>)
    ensures d.Some? ==> d.value < radix.Base()
  {
    var v: Option<nat> :=
      if '0' <= c <= '9' then Some(c as int - '0' as int)
      else if 'a' <= c <= 'f' then Some(c as int - 'a' as int + 10)
      else if 'A' <= c <= 'F' then Some(c as int - 'A' as int + 10)
      else None;
    if v.Some? && v.value < radix.Base() then v else None
  }

  /** The value of a run of digits in `radix`, or None when some character is not a digit. */
  function RadixValue(s: string, radix: Radix): (r: Option<nat>)
  {
    if s == [] then Some(0)
    else
      var init := RadixValue(s[..|s| - 1], radix);
      var last := RadixDigit(s[|s| - 1], radix);
      if init.Some? && last.Some? then Some(radix.Times(init.value) + last.value) else None
  }

  /** A non-empty run of decimal digits, read as a natural number. */
  function UnsignedInt(s: string): (r: Option<nat>)
    ensures r.Some? <==> s != [] && AllDigits(s)
  {
    if s != [] && AllDigits(s) then Some(DigitsValue(s)) else None
  }

  /** `digits`, `digits.`, `digits.digits` or `.digits`. */
  function Mantissa(s: string): (r: Option<real>)
    ensures r.Some? ==> r.value >= 0.0
  {
    match IndexOfChar(s, '.')
    case None =>
      if s != [] && AllDigits(s) then Some(DigitsValue(s) as real) else None
    case Some(d) =>
      var ip := s[..d];
      var fp := s[d + 1..];
      if (ip != [] || fp != []) && AllDigits(ip) && AllDigits(fp) then
        Some(DigitsValue(ip) as real + Fraction(fp))
      else None
  }

  /** The value of the digits after a decimal point: `0.fp`. */
  function Fraction(fp: string): (f: real)
    requires AllDigits(fp)
    ensures 0.0 <= f <= 1.0
  {
    if fp == [] then 0.0 else (DigitValue(fp[0]) as real + Fraction(fp[1..])) / 10.0
  }

  /** An exponent: optionally signed digits. */
  function Exponent(s: string): (r: Option<int>)
  {
    if |s| > 0 && (s[0] == '+' || s[0] == '-') then
      var u := UnsignedInt(s[1..]);
      var neg: int := if u.None? then 0 else 0 - (u.value as int);
      if u.None? then None else if s[0] == '-' then Some(neg) else Some(u.value)
    else
      var u := UnsignedInt(s);
      if u.None? then None else Some(u.value)
  }

  /** `m` times ten to the power `e`. */
  function Scale(m: real, e: int): (r: real)
    ensures m >= 0.0 ==> r >= 0.0
    decreases if e >= 0 then e else -e
  {
    if e == 0 then m else if e > 0 then Scale(m, e - 1) * 10.0 else Scale(m, e + 1) / 10.0
  }

  /** The first `e` or `E`. */
  function ExponentMark(s: string): (r: Option<nat>)
    ensures r.Some? ==> r.value < |s| && (s[r.value] == 'e' || s[r.value] == 'E')
    ensures r.Some? ==> forall i :: 0 <= i < r.value ==> s[i] != 'e' && s[i] != 'E'
    ensures r.None? ==> forall i :: 0 <= i < |s| ==> s[i] != 'e' && s[i] != 'E'
  {
    if s == [] then None
    else if s[0] == 'e' || s[0] == 'E' then Some(0)
    else
      var t := ExponentMark(s[1..]);
      if t.None? then
        assert forall i :: 1 <= i < |s| ==> s[i] == s[1..][i - 1];
        None
      else
        assert forall i :: 1 <= i < t.value + 1 ==> s[i] == s[1..][i - 1];
        Some(t.value + 1)
  }

  /** An unsigned decimal literal: a mantissa, then optionally `e`/`E` and an exponent. */
  function UnsignedDecimal(s: string): (r: Option<real>)
    ensures r.Some? ==> r.value >= 0.0
  {
    match ExponentMark(s)
    case None => Mantissa(s)
    case Some(k) =>
      var m := Mantissa(s[..k]);
      var e := Exponent(s[k + 1..]);
      if m.Some? && e.Some? then Some(Scale(m.value, e.value))
      else None
  }

  /** A trimmed, non-empty literal. */
  function Literal(t: string): JsNum
  {
    var neg := |t| > 0 && t[0] == '-';
    var body := if |t| > 0 && (t[0] == '-' || t[0] == '+') then t[1..] else t;
    if body == "Infinity" then Infinite(neg)
    else if body == t && |t| > 2 && t[0] == '0' && (t[1] in "xXoObB") then
      var radix := if t[1] in "xX" then Hex else if t[1] in "oO" then Oct else Bin;
      var v := RadixValue(t[2..], radix);
      if v.Some? then Finite(v.value as real) else NaN
    else
      var v := UnsignedDecimal(body);
      if v.None? then NaN else if neg then Finite(-v.value) else Finite(v.value)
  }

  /** `Number(s)`. */
  function Number(s: string): (n: JsNum)
    ensures AllSpace(s) ==> n == Finite(0.0)
  {
    var t := Trim(s);
    if t == [] then Finite(0.0) else Literal(t)
  }

  // ---------------------------------------------------------------------
  // properties
  // ---------------------------------------------------------------------

  /** Surrounding white space never changes the value. */
  lemma NumberIgnoresTrim(s: string)
    ensures Number(Trim(s)) == Number(s)
  {
    TrimIdempotent(s);
  }

  /** Plain digits have neither a fraction, an exponent nor a name. */
  lemma DigitsDecimal(d: string)
    requires d != [] && AllDigits(d)
    ensures UnsignedDecimal(d) == Some(DigitsValue(d) as real)
    ensures d != "Infinity"
  {
    assert IndexOfChar(d, '.') == None by {
      assert forall i :: 0 <= i < |d| ==> IsDigit(d[i]);
    }
    assert ExponentMark(d) == None;
    assert !IsDigit("Infinity"[0]);
  }

  /** Text without surrounding white space is read as a literal. */
  lemma NumberOfTrimmed(t: string)
    requires t != [] && Trim(t) == t
    ensures Number(t) == Literal(t)
  {
  }

  /** Digits, with or without a leading minus sign, have no surrounding white space. */
  lemma DigitsTrimmed(d: string)
    requires d != [] && AllDigits(d)
    ensures Trim(d) == d
    ensures Trim("-" + d) == "-" + d
  {
    assert !IsSpace(d[0]) && !IsSpace(d[|d| - 1]);
    TrimKeepsTrimmed(d);
    var t := "-" + d;
    assert t[|t| - 1] == d[|d| - 1];
    TrimKeepsTrimmed(t);
  }

  lemma LiteralOfDigits(d: string)
    requires d != [] && AllDigits(d)
    ensures Literal(d) == Finite(DigitsValue(d) as real)
  {
    DigitsDecimal(d);
    assert |d| > 2 ==> d[1] !in "xXoObB" by {
      if |d| > 2 { assert IsDigit(d[1]); }
    }
  }

  lemma LiteralOfNegDigits(d: string)
    requires d != [] && AllDigits(d)
    ensures Literal("-" + d) == Finite(-(DigitsValue(d) as real))
  {
    var t := "-" + d;
    assert t[1..] == d;
    DigitsDecimal(d);
  }

  /** Digits are read in base 10. */
  lemma NumberOfDigits(d: string)
    requires d != [] && AllDigits(d)
    ensures Number(d) == Finite(DigitsValue(d) as real)
  {
    DigitsTrimmed(d);
    NumberOfTrimmed(d);
    LiteralOfDigits(d);
  }

  /** Digits after a minus sign are read as a negative number. */
  lemma NumberOfNegDigits(d: string)
    requires d != [] && AllDigits(d)
    ensures Number("-" + d) == Finite(-(DigitsValue(d) as real))
  {
    DigitsTrimmed(d);
    NumberOfTrimmed("-" + d);
    LiteralOfNegDigits(d);
  }

  /** A non-negative integer written by `String(n)` reads back as itself. */
  lemma NumberOfNatText(n: nat)
    ensures Number(NatToString(n)) == Finite(n as real)
  {
    NumberOfDigits(NatToString(n));
    NatToStringRoundTrip(n);
  }
}
