/** What a line means, told by the codes of its characters: signs, digits, points, powers of ten, blanks
    and operators. */
module Numerals {
  import opened Wrappers
  import opened Text
  import opened Rounding
  import opened Numbers
  import opened Doubles
  import opened Records
  import opened Scraping
  import opened Characters

  /* Numerals as they are read */

  datatype Sign = NoSign | Plus | Minus

  function SignText(sign: Sign): Bytes {
    match sign
    case NoSign => []
    case Plus => ['+']
    case Minus => ['-']
  }

  datatype Ten = NoPower | Ten(letter: Byte, sign: Sign, digits: Bytes)

  /** A sign or none, digits before and after a point, or no point, and a power of ten or none. */
  datatype Numeral = Numeral(sign: Sign, whole: Bytes, point: bool, fraction: Bytes, ten: Ten)

  predicate IsNumeral(n: Numeral) {
    && DecimalCodes(n.whole) && DecimalCodes(n.fraction) && n.whole + n.fraction != []
    && (!n.point ==> n.fraction == [])
    && (n.ten.Ten? ==> n.ten.letter in {'e', 'E'} && DecimalCodes(n.ten.digits) && n.ten.digits != [])
  }

  function TenText(t: Ten): Bytes {
    match t
    case NoPower => []
    case Ten(letter, sign, digits) => [letter] + (SignText(sign) + digits)
  }

  function NumeralText(n: Numeral): Bytes {
    SignText(n.sign) + (n.whole + ((if n.point then ['.'] else []) + (n.fraction + TenText(n.ten))))
  }

  /** The magnitude it denotes. */
  function NumeralValue(n: Numeral): (x: real)
    requires IsNumeral(n)
  {
    var e := match n.ten
             case NoPower => 0
             case Ten(_, sign, digits) => if sign == Minus then 0 - DecimalOf(digits) else DecimalOf(digits);
    assert DecimalCodes(n.whole + n.fraction);
    Scale(10, DecimalOf(n.whole + n.fraction) as real, e - |n.fraction|)
  }

  /** What may follow a numeral directly: nothing, a blank, or an operator. */
  predicate Follows(t: Bytes) {
    t == [] || t[0] as int == 32 || 9 <= t[0] as int <= 13 || t[0] in {'+', '-', '*', '/'}
  }

  lemma SignIsRead(sign: Sign, rest: Bytes, floating: bool)
    requires rest != [] && (sign == NoSign ==> rest[0] !in {'+', '-'})
    ensures Accumulate(EMPTY_FIELD, SignText(sign) + rest, floating)
         == Accumulate(if sign == NoSign then EMPTY_FIELD
                       else EMPTY_FIELD.(phase := Phase.Signed, negative := sign == Minus), rest, floating)
  {
    if sign == NoSign {
      assert SignText(sign) + rest == rest;
    } else {
      assert (SignText(sign) + rest)[1..] == rest;
    }
  }

  function AfterSome(f: Field, digits: Bytes): Field
    requires AllDigits(digits)
  {
    if digits == [] then f else AfterDigits(f, digits)
  }

  lemma SomeDigits(f: Field, digits: Bytes, rest: Bytes)
    requires AllDigits(digits)
    ensures Accumulate(f, digits + rest, true) == Accumulate(AfterSome(f, digits), rest, true)
  {
    if digits == [] {
      assert digits + rest == rest;
    } else {
      AccumulateRun(f, digits, rest);
    }
  }

  lemma PointIsRead(f: Field, point: bool, rest: Bytes)
    requires f.phase in {Begin, Phase.Signed, Whole}
    ensures Accumulate(f, (if point then ['.'] else []) + rest, true)
         == Accumulate(if !point then f else f.(phase := if f.phase == Whole then Fraction else Point), rest, true)
  {
    if point {
      assert (['.'] + rest)[1..] == rest;
    } else {
      assert [] + rest == rest;
    }
  }

  lemma StopsBefore(f: Field, rest: Bytes)
    requires f.phase in {Whole, Fraction, ExponentDigits} && Follows(rest)
    ensures Accumulate(f, rest, true) == Accumulated(f, rest)
  {
  }

  function AfterLetter(f: Field, sign: Sign): Field {
    if sign == NoSign then f.(phase := Exponent)
    else f.(phase := ExponentSigned, exponentNegative := sign == Minus)
  }

  lemma LetterIsRead(f: Field, letter: Byte, sign: Sign, rest: Bytes)
    requires f.phase in {Whole, Fraction} && letter in {'e', 'E'} && !f.exponentNegative
    requires rest == [] || rest[0] !in {'+', '-'} || sign != NoSign
    ensures Accumulate(f, [letter] + (SignText(sign) + rest), true) == Accumulate(AfterLetter(f, sign), rest, true)
  {
    assert ([letter] + (SignText(sign) + rest))[1..] == SignText(sign) + rest;
    ExponentSignIsRead(f.(phase := Exponent), sign, rest);
  }

  lemma TenIsRead(f: Field, t: Ten, rest: Bytes)
    requires f.phase in {Whole, Fraction} && f.exponent == 0 && !f.exponentNegative && Follows(rest)
    requires t.Ten? ==> t.letter in {'e', 'E'} && AllDigits(t.digits) && t.digits != []
    ensures var g := if t == NoPower then f
                     else f.(phase := ExponentDigits, exponentNegative := t.sign == Minus,
                             exponent := Continued(0, t.digits));
            Accumulate(f, TenText(t) + rest, true) == Accumulated(g, rest)
  {
    if t == NoPower {
      assert TenText(t) + rest == rest;
      StopsBefore(f, rest);
    } else {
      var h := AfterLetter(f, t.sign);
      assert (t.digits + rest)[0] == t.digits[0];
      TenTextFirst(t, rest);
      LetterIsRead(f, t.letter, t.sign, t.digits + rest);
      AccumulateRun(h, t.digits, rest);
      StopsBefore(AfterDigits(h, t.digits), rest);
    }
  }

  lemma TenTextFirst(t: Ten, rest: Bytes)
    requires t.Ten?
    ensures TenText(t) + rest == [t.letter] + (SignText(t.sign) + (t.digits + rest))
  {
  }

  lemma ExponentSignIsRead(f: Field, sign: Sign, rest: Bytes)
    requires f.phase == Exponent && (rest == [] || rest[0] !in {'+', '-'} || sign != NoSign)
    ensures Accumulate(f, SignText(sign) + rest, true)
         == Accumulate(if sign == NoSign then f else f.(phase := ExponentSigned, exponentNegative := sign == Minus),
                       rest, true)
  {
    if sign == NoSign {
      assert SignText(sign) + rest == rest;
    } else {
      assert (SignText(sign) + rest)[1..] == rest;
    }
  }

  /** A numeral, and then what may follow one, is read whole as what it denotes. */
  lemma NumeralIsRead(n: Numeral, rest: Bytes)
    requires IsNumeral(n) && Follows(rest)
    ensures var a := Accumulate(EMPTY_FIELD, NumeralText(n) + rest, true);
            && a.rest == rest && Complete(a.field) && a.field.negative == (n.sign == Minus)
            && Denoted(a.field) == NumeralValue(n)
  {
    CodesAreDigits(n.whole);
    CodesAreDigits(n.fraction);
    if n.ten.Ten? {
      CodesAreDigits(n.ten.digits);
    }
    NumeralField(n, rest);
    FieldOfNumeral(n);
  }

  /** The field before its power of ten, and after it. */
  function MantissaField(n: Numeral): Field
    requires IsNumeral(n) && AllDigits(n.whole) && AllDigits(n.fraction)
  {
    var f := if n.sign == NoSign then EMPTY_FIELD else EMPTY_FIELD.(phase := Phase.Signed, negative := n.sign == Minus);
    var g := AfterSome(f, n.whole);
    var h := if !n.point then g else g.(phase := if g.phase == Whole then Fraction else Point);
    AfterSome(h, n.fraction)
  }

  function WholeField(n: Numeral): Field
    requires IsNumeral(n) && AllDigits(n.whole) && AllDigits(n.fraction) && (n.ten.Ten? ==> AllDigits(n.ten.digits))
  {
    var f := MantissaField(n);
    if n.ten == NoPower then f
    else f.(phase := ExponentDigits, exponentNegative := n.ten.sign == Minus, exponent := Continued(0, n.ten.digits))
  }

  lemma MantissaPhase(n: Numeral)
    requires IsNumeral(n) && AllDigits(n.whole) && AllDigits(n.fraction)
    ensures var f := MantissaField(n);
            && f.phase in {Whole, Fraction} && f.exponent == 0 && !f.exponentNegative
            && f.negative == (n.sign == Minus) && f.scale == |n.fraction|
            && f.mantissa == Continued(Continued(0, n.whole), n.fraction)
  {
  }

  lemma NumeralField(n: Numeral, rest: Bytes)
    requires IsNumeral(n) && Follows(rest)
    requires AllDigits(n.whole) && AllDigits(n.fraction) && (n.ten.Ten? ==> AllDigits(n.ten.digits))
    ensures Accumulate(EMPTY_FIELD, NumeralText(n) + rest, true) == Accumulated(WholeField(n), rest)
  {
    var s4 := TenText(n.ten) + rest;
    var s3 := n.fraction + s4;
    var s2 := (if n.point then ['.'] else []) + s3;
    var s1 := n.whole + s2;
    NumeralTail(n, rest);
    var f := if n.sign == NoSign then EMPTY_FIELD else EMPTY_FIELD.(phase := Phase.Signed, negative := n.sign == Minus);
    var g := AfterSome(f, n.whole);
    var h := if !n.point then g else g.(phase := if g.phase == Whole then Fraction else Point);
    SignIsRead(n.sign, s1, true);
    SomeDigits(f, n.whole, s2);
    PointIsRead(g, n.point, s3);
    SomeDigits(h, n.fraction, s4);
    MantissaPhase(n);
    TenIsRead(MantissaField(n), n.ten, rest);
  }

  /** The text of a numeral from the left, and what it starts with. */
  lemma NumeralTail(n: Numeral, rest: Bytes)
    requires IsNumeral(n)
    ensures var s1 := n.whole + ((if n.point then ['.'] else []) + (n.fraction + (TenText(n.ten) + rest)));
            && NumeralText(n) + rest == SignText(n.sign) + s1
            && s1 != [] && s1[0] !in {'+', '-'} && !IsSpace(s1[0])
  {
    var point: Bytes := if n.point then ['.'] else [];
    FiveParts(SignText(n.sign), n.whole, point, n.fraction, TenText(n.ten), rest);
    NumeralStart(n, n.fraction + (TenText(n.ten) + rest));
  }

  lemma FiveParts(a: Bytes, b: Bytes, c: Bytes, d: Bytes, e: Bytes, rest: Bytes)
    ensures a + (b + (c + (d + e))) + rest == a + (b + (c + (d + (e + rest))))
  {
  }

  lemma NumeralStart(n: Numeral, tail: Bytes)
    requires IsNumeral(n)
    ensures var s1 := n.whole + ((if n.point then ['.'] else []) + tail);
            n.whole != [] || n.point ==> s1 != [] && s1[0] !in {'+', '-'} && !IsSpace(s1[0])
    ensures n.whole != [] || n.point
  {
    var s1 := n.whole + ((if n.point then ['.'] else []) + tail);
    if n.whole != [] {
      assert s1[0] == n.whole[0];
    } else {
      assert n.point ==> s1[0] == '.';
    }
  }

  lemma FieldOfNumeral(n: Numeral)
    requires IsNumeral(n) && AllDigits(n.whole) && AllDigits(n.fraction) && (n.ten.Ten? ==> AllDigits(n.ten.digits))
    ensures var f := WholeField(n);
            Complete(f) && f.negative == (n.sign == Minus) && Denoted(f) == NumeralValue(n)
  {
    MantissaPhase(n);
    ContinuedAppend(0, n.whole, n.fraction);
    DecimalsAreContinued(n.whole + n.fraction);
    if n.ten.Ten? {
      DecimalsAreContinued(n.ten.digits);
    }
  }

  /* Integers as they are read */

  function WithSign(sign: Sign, n: nat): int {
    if sign == Minus then 0 - n else n
  }

  lemma {:induction false} IntegerRun(f: Field, digits: Bytes, rest: Bytes)
    requires f.phase in {Begin, Phase.Signed, Whole} && AllDigits(digits) && digits != []
    requires rest == [] || !(48 <= rest[0] as int <= 57)
    ensures f.phase == Whole && rest != [] ==> !Allowed(f, rest[0], false)
    ensures Accumulate(f, digits + rest, false)
         == Accumulated(f.(phase := Whole, mantissa := Continued(f.mantissa, digits)), rest)
    decreases |digits|
  {
    var next := Extend(f, digits[0], false);
    assert (digits + rest)[1..] == digits[1..] + rest;
    ContinuedUnfolds(f.mantissa, digits);
    if |digits| == 1 {
      assert digits[1..] + rest == rest;
    } else {
      IntegerRun(next, digits[1..], rest);
    }
  }

  /** A signed or unsigned integer, and then anything but a digit. */
  lemma IntegerIsRead(sign: Sign, digits: Bytes, rest: Bytes)
    requires DecimalCodes(digits) && digits != [] && (rest == [] || !(48 <= rest[0] as int <= 57))
    ensures var a := Accumulate(EMPTY_FIELD, SignText(sign) + (digits + rest), false);
            && a.rest == rest && Complete(a.field) && SignedMantissa(a.field) == WithSign(sign, DecimalOf(digits))
  {
    var f := if sign == NoSign then EMPTY_FIELD else EMPTY_FIELD.(phase := Phase.Signed, negative := sign == Minus);
    CodesAreDigits(digits);
    DecimalsAreContinued(digits);
    assert (digits + rest)[0] == digits[0];
    SignIsRead(sign, digits + rest, false);
    IntegerRun(f, digits, rest);
  }

  lemma IntegerItem(blanks: Bytes, sign: Sign, digits: Bytes, rest: Bytes)
    requires BlankCodes(blanks)
    requires DecimalCodes(digits) && digits != [] && (rest == [] || !(48 <= rest[0] as int <= 57))
    ensures var v := WithSign(sign, DecimalOf(digits));
            IntItem(blanks + (SignText(sign) + (digits + rest)))
            == Item(if -2_147_483_648 <= v <= 2_147_483_647 then Some(v) else None, rest)
  {
    var text := SignText(sign) + (digits + rest);
    BlankCodesAreSkipped(blanks, text);
    assert (digits + rest)[0] == digits[0];
    assert SkipSpace(text) == text;
    IntegerIsRead(sign, digits, rest);
  }

  lemma NumeralItem(blanks: Bytes, n: Numeral, rest: Bytes)
    requires BlankCodes(blanks) && IsNumeral(n) && Follows(rest)
    ensures DoubleItem(blanks + (NumeralText(n) + rest)) == Item(ToDouble(n.sign == Minus, NumeralMagnitude(n)), rest)
  {
    var text := NumeralText(n) + rest;
    BlankCodesAreSkipped(blanks, text);
    NumeralIsNotBlank(n, rest);
    NumeralIsRead(n, rest);
  }

  lemma NumeralIsNotBlank(n: Numeral, rest: Bytes)
    requires IsNumeral(n)
    ensures SkipSpace(NumeralText(n) + rest) == NumeralText(n) + rest
  {
    var s1 := n.whole + ((if n.point then ['.'] else []) + (n.fraction + (TenText(n.ten) + rest)));
    NumeralTail(n, rest);
    assert (SignText(n.sign) + s1)[0] == if n.sign == NoSign then s1[0] else SignText(n.sign)[0];
  }

  function NumeralMagnitude(n: Numeral): (x: real)
    requires IsNumeral(n)
    ensures x >= 0.0
  {
    NumeralIsRead(n, []);
    NumeralValue(n)
  }

  lemma CharacterItem(blanks: Bytes, c: Byte, rest: Bytes)
    requires BlankCodes(blanks) && !(c as int == 32 || 9 <= c as int <= 13)
    ensures CharItem(blanks + ([c] + rest)) == Item(Some(c), rest)
  {
    BlankCodesAreSkipped(blanks, [c] + rest);
    assert SkipSpace([c] + rest) == [c] + rest;
  }

  /* What is refused */

  /** A field without a digit, be there a sign or a point, is no double; without a digit after the sign, it is
      no integer. */
  lemma NoDigitsIsRefused(blanks: Bytes, sign: Sign, point: bool, rest: Bytes)
    requires BlankCodes(blanks) && (rest == [] || !(48 <= rest[0] as int <= 57))
    requires rest != [] && !point ==> rest[0] != '.' && (sign == NoSign ==> rest[0] !in {'+', '-'} && !IsSpace(rest[0]))
    ensures DoubleItem(blanks + (SignText(sign) + ((if point then ['.'] else []) + rest))).value == None
    ensures IntItem(blanks + (SignText(sign) + ((if point then ['.'] else []) + rest))).value == None
  {
    var tail := (if point then ['.'] else []) + rest;
    var text := SignText(sign) + tail;
    var f := if sign == NoSign then EMPTY_FIELD else EMPTY_FIELD.(phase := Phase.Signed, negative := sign == Minus);
    BlankCodesAreSkipped(blanks, text);
    TailStart(point, rest);
    TextStart(sign, tail);
    SignMayBeRead(sign, tail);
    NoDigitField(f, point, rest);
  }

  lemma TailStart(point: bool, rest: Bytes)
    ensures var tail := (if point then ['.'] else []) + rest;
            if point then tail != [] && tail[0] == '.' && tail[1..] == rest else tail == rest
  {
  }

  lemma TextStart(sign: Sign, tail: Bytes)
    requires sign == NoSign && tail != [] ==> !IsSpace(tail[0])
    ensures SkipSpace(SignText(sign) + tail) == SignText(sign) + tail
  {
    if sign == NoSign {
      assert SignText(sign) + tail == tail;
    } else {
      assert (SignText(sign) + tail)[0] == SignText(sign)[0];
    }
  }

  lemma SignMayBeRead(sign: Sign, tail: Bytes)
    requires tail != [] && sign == NoSign ==> tail[0] !in {'+', '-'}
    ensures forall floating: bool ::
              Accumulate(EMPTY_FIELD, SignText(sign) + tail, floating)
              == Accumulate(if sign == NoSign then EMPTY_FIELD
                            else EMPTY_FIELD.(phase := Phase.Signed, negative := sign == Minus), tail, floating)
  {
    if tail != [] {
      SignIsRead(sign, tail, false);
      SignIsRead(sign, tail, true);
    } else if sign == NoSign {
      assert SignText(sign) + tail == tail;
    } else {
      assert (SignText(sign) + tail)[1..] == tail;
    }
  }

  lemma NoDigitField(f: Field, point: bool, rest: Bytes)
    requires f.phase in {Begin, Phase.Signed} && (rest == [] || !(48 <= rest[0] as int <= 57))
    requires rest != [] && !point ==> rest[0] != '.' && (f.phase == Begin ==> rest[0] !in {'+', '-'})
    ensures var tail := (if point then ['.'] else []) + rest;
            !Complete(Accumulate(f, tail, true).field) && !Complete(Accumulate(f, tail, false).field)
  {
    TailStart(point, rest);
    if point {
      assert Accumulate(f.(phase := Point), rest, true) == Accumulated(f.(phase := Point), rest);
    }
  }

  /** A numeral of which the power of ten has a letter and no digits is no double. */
  lemma NoPowerIsRefused(blanks: Bytes, n: Numeral, letter: Byte, sign: Sign, rest: Bytes)
    requires BlankCodes(blanks) && IsNumeral(n) && n.ten == NoPower && letter in {'e', 'E'}
    requires rest == [] || !(48 <= rest[0] as int <= 57 || (sign == NoSign && rest[0] in {'+', '-'}))
    ensures DoubleItem(blanks + (NumeralText(n) + ([letter] + (SignText(sign) + rest)))).value == None
  {
    var tail := [letter] + (SignText(sign) + rest);
    BlankCodesAreSkipped(blanks, NumeralText(n) + tail);
    NumeralIsNotBlank(n, tail);
    CodesAreDigits(n.whole);
    CodesAreDigits(n.fraction);
    MantissaIsRead(n, tail);
    MantissaPhase(n);
    LetterAlone(MantissaField(n), letter, sign, rest);
  }

  lemma MantissaIsRead(n: Numeral, tail: Bytes)
    requires IsNumeral(n) && n.ten == NoPower && AllDigits(n.whole) && AllDigits(n.fraction)
    ensures Accumulate(EMPTY_FIELD, NumeralText(n) + tail, true) == Accumulate(MantissaField(n), tail, true)
  {
    var s3 := n.fraction + tail;
    var s2 := (if n.point then ['.'] else []) + s3;
    var s1 := n.whole + s2;
    NumeralTail(n, tail);
    assert TenText(n.ten) + tail == tail;
    var f := if n.sign == NoSign then EMPTY_FIELD else EMPTY_FIELD.(phase := Phase.Signed, negative := n.sign == Minus);
    var g := AfterSome(f, n.whole);
    SignIsRead(n.sign, s1, true);
    SomeDigits(f, n.whole, s2);
    PointIsRead(g, n.point, s3);
    SomeDigits(if !n.point then g else g.(phase := if g.phase == Whole then Fraction else Point), n.fraction, tail);
  }

  lemma LetterAlone(f: Field, letter: Byte, sign: Sign, rest: Bytes)
    requires f.phase in {Whole, Fraction} && letter in {'e', 'E'} && !f.exponentNegative
    requires rest == [] || !(48 <= rest[0] as int <= 57 || (sign == NoSign && rest[0] in {'+', '-'}))
    ensures !Complete(Accumulate(f, [letter] + (SignText(sign) + rest), true).field)
  {
    var h := AfterLetter(f, sign);
    LetterIsRead(f, letter, sign, rest);
    assert Accumulate(h, rest, true) == Accumulated(h, rest);
  }

  /* Lines as they are read */

  /** A line with all four items, and what stands around them. */
  datatype Words = Words(blanks0: Bytes, idSign: Sign, id: Bytes, blanks1: Bytes, x: Numeral,
                         blanks2: Bytes, operator: Byte, blanks3: Bytes, y: Numeral, rest: Bytes)

  predicate AreWords(w: Words) {
    && BlankCodes(w.blanks0) && BlankCodes(w.blanks1) && BlankCodes(w.blanks2) && BlankCodes(w.blanks3)
    && w.blanks1 != [] && DecimalCodes(w.id) && w.id != [] && IsNumeral(w.x) && IsNumeral(w.y)
    && !(w.operator as int == 32 || 9 <= w.operator as int <= 13)
    && (w.blanks2 != [] || w.operator in {'+', '-', '*', '/'}) && Follows(w.rest)
  }

  function AfterX(w: Words): Bytes {
    w.blanks2 + ([w.operator] + (w.blanks3 + (NumeralText(w.y) + w.rest)))
  }

  function AfterId(w: Words): Bytes {
    w.blanks1 + (NumeralText(w.x) + AfterX(w))
  }

  function LineOf(w: Words): Bytes {
    w.blanks0 + (SignText(w.idSign) + (w.id + AfterId(w)))
  }

  /** The items of a line, one after the other. */
  lemma WordItems(w: Words)
    requires AreWords(w)
    ensures var id := WithSign(w.idSign, DecimalOf(w.id));
            IntItem(LineOf(w)) == Item(if -2_147_483_648 <= id <= 2_147_483_647 then Some(id) else None, AfterId(w))
    ensures DoubleItem(AfterId(w)) == Item(ToDouble(w.x.sign == Minus, NumeralMagnitude(w.x)), AfterX(w))
    ensures var item := CharItem(AfterX(w));
            && item == Item(Some(w.operator), w.blanks3 + (NumeralText(w.y) + w.rest))
            && DoubleItem(item.rest) == Item(ToDouble(w.y.sign == Minus, NumeralMagnitude(w.y)), w.rest)
    ensures AfterId(w) != [] && AfterX(w) != []
  {
    assert AfterId(w)[0] == w.blanks1[0];
    assert Follows(AfterX(w)) by {
      if w.blanks2 == [] {
        assert AfterX(w)[0] == w.operator;
      } else {
        assert AfterX(w)[0] == w.blanks2[0];
      }
    }
    IntegerItem(w.blanks0, w.idSign, w.id, AfterId(w));
    NumeralItem(w.blanks1, w.x, AfterX(w));
    CharacterItem(w.blanks2, w.operator, w.blanks3 + (NumeralText(w.y) + w.rest));
    NumeralItem(w.blanks3, w.y, w.rest);
  }

  function OperationOf(c: Byte): Option<Operation> {
    match c
    case '+' => Some(ADD)
    case '-' => Some(SUBTRACT)
    case '*' => Some(MULTIPLY)
    case '/' => Some(DIVIDE)
    case _ => None
  }

  /** What a line with all four items means: a record with the id and the operands that the digits and signs
      denote, rounded to the nearest doubles, and '+', '-', '*' and '/' for the operation; or bad data, when
      the id does not fit 32 bits, an operand overflows, or the operator is another character. */
  lemma LineMeans(env: Environment, w: Words, g: Garbage)
    requires AreWords(w)
    ensures var id := WithSign(w.idSign, DecimalOf(w.id));
            var x := ToDouble(w.x.sign == Minus, NumeralMagnitude(w.x));
            var y := ToDouble(w.y.sign == Minus, NumeralMagnitude(w.y));
            var op := OperationOf(w.operator);
            ParseLine(env, LineOf(w), g)
            == if -2_147_483_648 <= id <= 2_147_483_647 && x.Some? && op.Some? && y.Some?
               then Some(ClientData(env.clientId, id, x.value, op.value, y.value, g.padding)) else None
  {
    WordItems(w);
  }

  /** A line that ends right after its id: the other items keep the values that happened to be in memory. */
  lemma IdOnlyMeans(env: Environment, blanks: Bytes, sign: Sign, digits: Bytes, g: Garbage)
    requires BlankCodes(blanks) && DecimalCodes(digits) && digits != []
    ensures var id := WithSign(sign, DecimalOf(digits));
            var op := OperationOf(g.operation);
            ParseLine(env, blanks + (SignText(sign) + (digits + [])), g)
            == if -2_147_483_648 <= id <= 2_147_483_647 && op.Some?
               then Some(ClientData(env.clientId, id, g.operand1, op.value, g.operand2, g.padding)) else None
  {
    IntegerItem(blanks, sign, digits, []);
  }

  /** A line that ends right after its first operand, likewise. */
  lemma OneOperandMeans(env: Environment, blanks0: Bytes, sign: Sign, digits: Bytes, blanks1: Bytes, x: Numeral,
                        g: Garbage)
    requires BlankCodes(blanks0) && DecimalCodes(digits) && digits != []
    requires BlankCodes(blanks1) && blanks1 != [] && IsNumeral(x)
    ensures var id := WithSign(sign, DecimalOf(digits));
            var op := OperationOf(g.operation);
            var v := ToDouble(x.sign == Minus, NumeralMagnitude(x));
            ParseLine(env, blanks0 + (SignText(sign) + (digits + (blanks1 + (NumeralText(x) + [])))), g)
            == if -2_147_483_648 <= id <= 2_147_483_647 && v.Some? && op.Some?
               then Some(ClientData(env.clientId, id, v.value, op.value, g.operand2, g.padding)) else None
  {
    var rest := blanks1 + (NumeralText(x) + []);
    assert rest[0] == blanks1[0];
    IntegerItem(blanks0, sign, digits, rest);
    NumeralItem(blanks1, x, []);
  }
}
