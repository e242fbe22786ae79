/** Decimal numbers in text: how formatted input accumulates and converts the characters of a
    numeric field, and how integers are printed. */
module Numbers {
  import opened Wrappers
  import opened Text
  import opened Rounding

  type Int32 = x: int | -0x8000_0000 <= x < 0x8000_0000

  /* Fields: the characters allowed next, given those accumulated so far */

  datatype Phase =
    | Begin | Signed | Whole | Point | Fraction
    | Exponent | ExponentSigned | ExponentDigits

  /** What has been accumulated: -1^negative * mantissa * 10^(+-exponent - scale). */
  datatype Field = Field(phase: Phase, negative: bool, mantissa: nat, scale: nat,
                         exponentNegative: bool, exponent: nat)

  const EMPTY_FIELD: Field := Field(Begin, false, 0, 0, false, 0)

  predicate IsDigit(c: Byte) {
    '0' <= c <= '9'
  }

  function DigitValue(c: Byte): nat
    requires IsDigit(c)
  {
    c as int - '0' as int
  }

  predicate IsSign(c: Byte) {
    c == '+' || c == '-'
  }

  /** `floating` tells a field read into a double from one read into an integer. */
  predicate Allowed(f: Field, c: Byte, floating: bool) {
    || (IsDigit(c))
    || (IsSign(c) && (f.phase == Begin || (floating && f.phase == Exponent)))
    || (floating && c == '.' && f.phase in {Begin, Signed, Whole})
    || (floating && (c == 'e' || c == 'E') && f.phase in {Whole, Fraction})
  }

  function Extend(f: Field, c: Byte, floating: bool): Field
    requires Allowed(f, c, floating)
  {
    if IsDigit(c) then
      if f.phase in {Begin, Signed, Whole} then
        f.(phase := Whole, mantissa := 10 * f.mantissa + DigitValue(c))
      else if f.phase in {Point, Fraction} then
        f.(phase := Fraction, mantissa := 10 * f.mantissa + DigitValue(c), scale := f.scale + 1)
      else
        f.(phase := ExponentDigits, exponent := 10 * f.exponent + DigitValue(c))
    else if IsSign(c) then
      if f.phase == Begin then f.(phase := Signed, negative := c == '-')
      else f.(phase := ExponentSigned, exponentNegative := c == '-')
    else if c == '.' then f.(phase := if f.phase == Whole then Fraction else Point)
    else f.(phase := Exponent)
  }

  datatype Accumulated = Accumulated(field: Field, rest: Bytes)

  /** Take characters as long as they are allowed. */
  function Accumulate(f: Field, s: Bytes, floating: bool): (a: Accumulated)
    ensures |a.rest| <= |s|
    decreases |s|
  {
    if s != [] && Allowed(f, s[0], floating) then
      Accumulate(Extend(f, s[0], floating), s[1..], floating)
    else Accumulated(f, s)
  }

  /** The conversion takes the whole field only when it ends in a digit or in a point after one. */
  predicate Complete(f: Field) {
    f.phase in {Whole, Fraction, ExponentDigits}
  }

  function SignedMantissa(f: Field): int {
    var m: int := f.mantissa;
    if f.negative then -m else m
  }

  /** `is >> int32`: out of range fails. */
  function IntValue(f: Field): (v: Option<Int32>)
  {
    if Complete(f) && -0x8000_0000 <= SignedMantissa(f) < 0x8000_0000
    then Some(SignedMantissa(f)) else None
  }

  /** The magnitude a field denotes, without rounding. */
  function Denoted(f: Field): (x: real)
    ensures x >= 0.0
    ensures x == 0.0 <==> f.mantissa == 0
  {
    var e := (if f.exponentNegative then -(f.exponent as int) else f.exponent) - f.scale;
    ScaleMonotone(10, 0.0, f.mantissa as real, e);
    ScaleSum(10, 0.0, 0.0, e);
    Scale(10, f.mantissa as real, e)
  }

  /* Printing */

  function Digit(d: nat): Byte
    requires d < 10
    ensures IsDigit(Digit(d)) && DigitValue(Digit(d)) == d
  {
    ('0' as int + d) as char
  }

  function Digits(n: nat): (s: Bytes)
    ensures s != []
  {
    if n < 10 then [Digit(n)] else Digits(n / 10) + [Digit(n % 10)]
  }

  function PrintInt(n: int): (s: Bytes)
    ensures s != []
  {
    if n < 0 then "-" + Digits(-n) else Digits(n)
  }

  /** A text that one numeric field takes up entirely. */
  predicate IsNumericText(t: Bytes, floating: bool) {
    t != [] && Accumulate(EMPTY_FIELD, t, floating).rest == []
  }

  /* Laws */

  /** A blank, or the end of the text, ends a numeric field. */
  lemma {:induction false} FieldEndsAtBlank(f: Field, t: Bytes, rest: Bytes, floating: bool)
    requires Accumulate(f, t, floating).rest == []
    requires rest == [] || IsSpace(rest[0])
    ensures Accumulate(f, t + rest, floating) == Accumulated(Accumulate(f, t, floating).field, rest)
    decreases |t|
  {
    if t == [] {
      assert t + rest == rest;
    } else {
      assert (t + rest)[1..] == t[1..] + rest;
      FieldEndsAtBlank(Extend(f, t[0], floating), t[1..], rest, floating);
    }
  }

  lemma {:induction false} AccumulateDigits(f: Field, n: nat, rest: Bytes, floating: bool)
    requires f.phase in {Begin, Signed} && f.mantissa == 0
    ensures Accumulate(f, Digits(n) + rest, floating)
         == Accumulate(f.(phase := Whole, mantissa := n), rest, floating)
    decreases n
  {
    if n < 10 {
      assert (Digits(n) + rest)[1..] == rest;
    } else {
      var last := [Digit(n % 10)] + rest;
      assert Digits(n) + rest == Digits(n / 10) + last;
      AccumulateDigits(f, n / 10, last, floating);
      assert last[1..] == rest;
    }
  }

  /** A printed integer is one numeric field, and it denotes that integer. */
  lemma PrintedIntField(n: int, floating: bool)
    ensures Accumulate(EMPTY_FIELD, PrintInt(n), floating)
         == Accumulated(Field(Whole, n < 0, if n < 0 then -n else n, 0, false, 0), [])
    ensures IsNumericText(PrintInt(n), floating)
  {
    if n < 0 {
      assert PrintInt(n)[1..] == Digits(-n);
      assert Digits(-n) == Digits(-n) + [];
      AccumulateDigits(EMPTY_FIELD.(phase := Signed, negative := true), -n, [], floating);
    } else {
      assert Digits(n) == Digits(n) + [];
      AccumulateDigits(EMPTY_FIELD, n, [], floating);
    }
  }

  lemma {:induction false} DigitsLength(n: nat, k: nat)
    requires n < Pow(10, k) && k >= 1
    ensures |Digits(n)| <= k
    decreases n
  {
    if n >= 10 {
      assert Pow(10, k) == 10 * Pow(10, k - 1);
      DigitsLength(n / 10, k - 1);
    }
  }

  lemma Int32Length(n: Int32)
    ensures |PrintInt(n)| <= 11
  {
    assert Pow(10, 10) == 10_000_000_000;
    var m: int := n;
    DigitsLength(if m < 0 then -m else m, 10);
  }

  /* Decimal notation */

  predicate AllDigits(t: Bytes) {
    forall i :: 0 <= i < |t| ==> IsDigit(t[i])
  }

  /** The number that digits denote when they continue the number `n`. */
  function Continued(n: nat, t: Bytes): nat
    requires AllDigits(t)
    decreases |t|
  {
    if t == [] then n else Continued(10 * n + DigitValue(t[0]), t[1..])
  }

  lemma {:induction false} ContinuedAppend(n: nat, s: Bytes, t: Bytes)
    requires AllDigits(s) && AllDigits(t)
    ensures Continued(n, s + t) == Continued(Continued(n, s), t)
    decreases |s|
  {
    if s == [] {
      assert s + t == t;
    } else {
      assert (s + t)[1..] == s[1..] + t;
      ContinuedAppend(10 * n + DigitValue(s[0]), s[1..], t);
    }
  }

  /** Printed digits denote the number printed. */
  lemma {:induction false} DigitsDenote(n: nat)
    ensures AllDigits(Digits(n)) && Continued(0, Digits(n)) == n
    decreases n
  {
    if n >= 10 {
      DigitsDenote(n / 10);
      ContinuedAppend(0, Digits(n / 10), [Digit(n % 10)]);
      assert Continued(n / 10, [Digit(n % 10)]) == Continued(10 * (n / 10) + n % 10, []);
    } else {
      assert Continued(0, [Digit(n)]) == Continued(n, []);
    }
  }

  /** A field after a run of digits, in each of its parts. */
  function AfterDigits(f: Field, t: Bytes): Field
    requires AllDigits(t) && t != []
  {
    if f.phase in {Begin, Signed, Whole} then
      f.(phase := Whole, mantissa := Continued(f.mantissa, t))
    else if f.phase in {Point, Fraction} then
      f.(phase := Fraction, mantissa := Continued(f.mantissa, t), scale := f.scale + |t|)
    else
      f.(phase := ExponentDigits, exponent := Continued(f.exponent, t))
  }

  lemma AfterOneDigit(f: Field, t: Bytes)
    requires AllDigits(t) && t != []
    ensures |t| == 1 ==> Extend(f, t[0], true) == AfterDigits(f, t)
    ensures |t| > 1 ==> AfterDigits(Extend(f, t[0], true), t[1..]) == AfterDigits(f, t)
  {
    ContinuedUnfolds(f.mantissa, t);
    ContinuedUnfolds(f.exponent, t);
  }

  lemma ContinuedUnfolds(n: nat, t: Bytes)
    requires AllDigits(t) && t != []
    ensures var next := 10 * n + DigitValue(t[0]);
            Continued(n, t) == Continued(next, t[1..]) && (|t| == 1 ==> Continued(n, t) == next)
  {
  }

  lemma {:induction false} AccumulateRun(f: Field, t: Bytes, rest: Bytes)
    requires AllDigits(t) && t != []
    ensures Accumulate(f, t + rest, true) == Accumulate(AfterDigits(f, t), rest, true)
    decreases |t|
  {
    AfterOneDigit(f, t);
    assert (t + rest)[1..] == t[1..] + rest;
    if |t| == 1 {
      assert t[1..] + rest == rest;
    } else {
      AccumulateRun(Extend(f, t[0], true), t[1..], rest);
    }
  }

  lemma FractionPart(f: Field, fraction: Bytes, rest: Bytes)
    requires f.phase == Whole && f.scale == 0 && AllDigits(fraction) && fraction != []
    ensures var g := f.(phase := Fraction, mantissa := Continued(f.mantissa, fraction), scale := |fraction|);
            Accumulate(f, "." + (fraction + rest), true) == Accumulate(g, rest, true)
  {
    var text := "." + (fraction + rest);
    assert text[1..] == fraction + rest;
    AccumulateRun(f.(phase := Fraction), fraction, rest);
  }

  lemma ExponentPart(f: Field, negative: bool, exponent: Bytes)
    requires f.phase in {Whole, Fraction} && f.exponent == 0 && AllDigits(exponent) && exponent != []
    ensures var g := f.(phase := ExponentDigits, exponentNegative := negative, exponent := Continued(0, exponent));
            Accumulate(f, "e" + ((if negative then "-" else "+") + exponent), true) == Accumulated(g, [])
  {
    var text := (if negative then "-" else "+") + exponent;
    assert ("e" + text)[1..] == text;
    assert text[1..] == exponent == exponent + [];
    AccumulateRun(f.(phase := ExponentSigned, exponentNegative := negative), exponent, []);
  }
}
