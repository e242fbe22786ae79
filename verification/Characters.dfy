/** What is printed, told by the codes of its characters. */
module Characters {
  import opened Text
  import opened Rounding
  import opened Numbers
  import opened Doubles
  import opened Records

  /* Decimal digits */

  predicate DecimalCodes(t: Bytes) {
    forall i :: 0 <= i < |t| ==> 48 <= t[i] as int <= 57
  }

  function DecimalOf(t: Bytes): nat
    requires DecimalCodes(t)
  {
    if t == [] then 0 else 10 * DecimalOf(t[..|t| - 1]) + (t[|t| - 1] as int - 48)
  }

  lemma CodesAreDigits(t: Bytes)
    ensures DecimalCodes(t) <==> AllDigits(t)
  {
    if DecimalCodes(t) {
      assert forall i :: 0 <= i < |t| ==> IsDigit(t[i]);
    }
    if AllDigits(t) {
      assert forall i :: 0 <= i < |t| ==> IsDigit(t[i]);
    }
  }

  lemma {:induction false} DecimalsAreContinued(t: Bytes)
    requires DecimalCodes(t) && AllDigits(t)
    ensures Continued(0, t) == DecimalOf(t)
  {
    if t != [] {
      var last := |t| - 1;
      DecimalsAreContinued(t[..last]);
      assert t == t[..last] + t[last..];
      ContinuedAppend(0, t[..last], t[last..]);
      ContinuedUnfolds(DecimalOf(t[..last]), t[last..]);
    }
  }

  /** The digits printed for a number: they denote it, and do not start with a zero unless it is the only
      one. */
  lemma {:induction false} DigitsText(n: nat)
    ensures Digits(n) != [] && DecimalCodes(Digits(n)) && DecimalOf(Digits(n)) == n
    ensures if n == 0 then |Digits(n)| == 1 else Digits(n)[0] as int != 48
    ensures n % 10 != 0 ==> Digits(n)[|Digits(n)| - 1] as int != 48
    decreases n
  {
    var t := Digits(n);
    if n >= 10 {
      DigitsText(n / 10);
      assert t[..|t| - 1] == Digits(n / 10);
    } else {
      assert t[..0] == [];
    }
  }

  lemma {:induction false} DigitsMagnitude(n: nat)
    requires n > 0
    ensures |Digits(n)| > 0 && Pow(10, |Digits(n)| - 1) <= n < Pow(10, |Digits(n)|)
    decreases n
  {
    if n >= 10 {
      DigitsMagnitude(n / 10);
    }
  }

  /** The exponent of the first digit. */
  lemma FirstExponent(n: nat, k: int)
    requires n > 0
    ensures Scale(10, n as real, k) > 0.0 && Log(10, Scale(10, n as real, k)) == k + |Digits(n)| - 1
  {
    var j := |Digits(n)|;
    DigitsMagnitude(n);
    PowerIsWhole(10, j - 1);
    PowerIsWhole(10, j);
    ScaleMonotone(10, n as real, Power(10, j - 1), k);
    ScaleMonotone(10, n as real, Power(10, j), k);
    ScaleAdd(10, 1.0, j - 1, k);
    ScaleAdd(10, 1.0, j, k);
    LogIs(10, Scale(10, n as real, k), k + j - 1);
  }

  /* Doubles as they are printed */

  /** Digits before and after a point, and those of an exponent. */
  datatype Layout = Layout(whole: Bytes, fraction: Bytes, exponent: Bytes)

  predicate Scientific(e: int) {
    e < -4 || e >= 15
  }

  /** What the layout looks like, when the first digit stands for ten to the `e`. */
  function Laid(l: Layout, e: int): Bytes {
    var pointed := if l.fraction == [] then l.whole else l.whole + ['.'] + l.fraction;
    if Scientific(e) then pointed + ['e', if e < 0 then '-' else '+'] + l.exponent else pointed
  }

  /** The general notation: a fraction that does not end in zero, and an exponent of at least two digits
      exactly when it is below -4 or at least 15. */
  ghost predicate IsGeneral(l: Layout, e: int) {
    && DecimalCodes(l.whole) && DecimalCodes(l.fraction) && DecimalCodes(l.exponent) && l.whole != []
    && (l.fraction != [] ==> l.fraction[|l.fraction| - 1] as int != 48)
    && if Scientific(e) then
         && |l.whole| == 1 && l.whole[0] as int != 48
         && |l.exponent| >= 2 && (|l.exponent| > 2 ==> l.exponent[0] as int != 48)
         && DecimalOf(l.exponent) == (if e < 0 then 0 - e else e)
       else
         && l.exponent == []
         && if e < 0 then l.whole == "0" else |l.whole| == e + 1 && l.whole[0] as int != 48
  }

  /** The number in that notation. */
  function LaidValue(l: Layout, e: int): real
    requires DecimalCodes(l.whole + l.fraction)
  {
    Scale(10, DecimalOf(l.whole + l.fraction) as real, (if Scientific(e) then e else 0) - |l.fraction|)
  }

  lemma ZeroCodes(k: nat)
    ensures DecimalCodes(Zeros(k))
  {
  }

  lemma {:induction false} LeadingZeroCodes(k: nat, t: Bytes)
    requires DecimalCodes(t)
    ensures DecimalCodes(Zeros(k) + t) && DecimalOf(Zeros(k) + t) == DecimalOf(t)
  {
    CodesAreDigits(t);
    CodesAreDigits(Zeros(k) + t);
    LeadingZeros(t, k);
    DecimalsAreContinued(t);
    DecimalsAreContinued(Zeros(k) + t);
  }

  lemma TrailingZeroCodes(n: nat, k: nat)
    ensures DecimalCodes(Digits(n) + Zeros(k)) && DecimalOf(Digits(n) + Zeros(k)) == n * Pow(10, k)
  {
    DigitsText(n);
    CodesAreDigits(Digits(n) + Zeros(k));
    TrailingZeros(n, k);
    DecimalsAreContinued(Digits(n) + Zeros(k));
  }

  lemma ExponentCodes(e: nat)
    ensures var t := ExponentText(e);
            && DecimalCodes(t) && |t| >= 2 && (|t| > 2 ==> t[0] as int != 48) && DecimalOf(t) == e
  {
    DigitsText(e);
    if e < 10 {
      assert ExponentText(e) == Zeros(1) + Digits(e);
      LeadingZeroCodes(1, Digits(e));
    }
  }

  /** How digits are laid out. */
  function LayoutOf(digits: Bytes, e: int): Layout
    requires digits != []
  {
    if Scientific(e) then Layout(digits[..1], digits[1..], ExponentText(if e < 0 then -e else e))
    else if e < 0 then Layout("0", Zeros(0 - e - 1) + digits, [])
    else if e + 1 < |digits| then Layout(digits[..e + 1], digits[e + 1..], [])
    else Layout(digits + Zeros(e + 1 - |digits|), [], [])
  }

  lemma PointText(digits: Bytes, j: nat)
    requires j <= |digits|
    ensures PointAfter(digits, j) == if digits[j..] == [] then digits[..j] else digits[..j] + ['.'] + digits[j..]
  {
    if j == |digits| {
      assert digits[..j] + [] == digits[..j];
    } else {
      assert digits[..j] + ("." + digits[j..]) == digits[..j] + ['.'] + digits[j..];
    }
  }

  lemma SuffixText(pointed: Bytes, e: int)
    ensures WithExponent(pointed, e)
         == pointed + ['e', if e < 0 then '-' else '+'] + ExponentText(if e < 0 then -e else e)
  {
  }

  lemma ZerosThenDigits(k: nat, digits: Bytes)
    requires k > 0
    ensures (Zeros(k) + digits)[..1] == "0" && (Zeros(k) + digits)[1..] == Zeros(k - 1) + digits
  {
  }

  lemma LaidText(digits: Bytes, e: int)
    requires digits != []
    ensures Placed(digits, e) == Laid(LayoutOf(digits, e), e)
  {
    if Scientific(e) {
      PointText(digits, 1);
      SuffixText(PointAfter(digits, 1), e);
    } else if e < 0 {
      PointText(Zeros(-e) + digits, 1);
      ZerosThenDigits(-e, digits);
    } else if e + 1 < |digits| {
      PointText(digits, e + 1);
    }
  }

  lemma LaidForm(digits: Bytes, e: int)
    requires digits != [] && DecimalCodes(digits) && digits[0] as int != 48 && digits[|digits| - 1] as int != 48
    ensures IsGeneral(LayoutOf(digits, e), e)
  {
    if Scientific(e) {
      ExponentCodes(if e < 0 then -e else e);
    } else if e < 0 {
      var fraction := Zeros(0 - e - 1) + digits;
      LeadingZeroCodes(0 - e - 1, digits);
      assert fraction[|fraction| - 1] == digits[|digits| - 1];
    } else if e + 1 >= |digits| {
      var whole := digits + Zeros(e + 1 - |digits|);
      assert whole[0] == digits[0];
      assert DecimalCodes(whole);
    }
  }

  lemma LaidDigits(digits: Bytes, e: int)
    requires digits != []
    ensures var l := LayoutOf(digits, e);
            l.whole + l.fraction
            == if !Scientific(e) && e < 0 then Zeros(0 - e) + digits
               else if !Scientific(e) && e + 1 >= |digits| then digits + Zeros(e + 1 - |digits|)
               else digits
  {
    if !Scientific(e) && e < 0 {
      assert "0" + (Zeros(0 - e - 1) + digits) == Zeros(0 - e) + digits;
    }
  }

  /** Zeros after the digits. */
  lemma FilledNumber(n: nat, e: int)
    requires n > 0 && !Scientific(e) && e + 1 >= |Digits(n)|
    ensures var l := LayoutOf(Digits(n), e);
            && DecimalCodes(l.whole + l.fraction)
            && LaidValue(l, e) == Scale(10, n as real, e + 1 - |Digits(n)|)
  {
    LaidDigits(Digits(n), e);
    TrailingZeroCodes(n, e + 1 - |Digits(n)|);
    ScaledInteger(n, e + 1 - |Digits(n)|);
  }

  lemma LaidNumber(n: nat, e: int)
    requires n > 0
    ensures var l := LayoutOf(Digits(n), e);
            && DecimalCodes(l.whole + l.fraction)
            && LaidValue(l, e) == Scale(10, n as real, e + 1 - |Digits(n)|)
  {
    if !Scientific(e) && e + 1 >= |Digits(n)| {
      FilledNumber(n, e);
    } else {
      DigitsText(n);
      LaidDigits(Digits(n), e);
      if !Scientific(e) && e < 0 {
        LeadingZeroCodes(0 - e, Digits(n));
      }
    }
  }

  lemma {:induction false} StrippedEnd(n: nat, k: int)
    requires n > 0
    ensures Strip(n, k).n % 10 != 0
  {
    if n % 10 == 0 {
      StrippedEnd(n / 10, k + 1);
    }
  }

  lemma GeneralText(n: nat, k: int) returns (e: int, l: Layout)
    requires n % 10 != 0
    ensures Scale(10, n as real, k) > 0.0 && e == Log(10, Scale(10, n as real, k))
    ensures IsGeneral(l, e) && DecimalCodes(l.whole + l.fraction) && LaidValue(l, e) == Scale(10, n as real, k)
    ensures General(n, k) == Laid(l, e)
  {
    e := k + |Digits(n)| - 1;
    l := LayoutOf(Digits(n), e);
    FirstExponent(n, k);
    DigitsLaid(n, e);
    LaidNumber(n, e);
  }

  lemma DigitsLaid(n: nat, e: int)
    requires n % 10 != 0
    ensures IsGeneral(LayoutOf(Digits(n), e), e)
    ensures Placed(Digits(n), e) == Laid(LayoutOf(Digits(n), e), e)
  {
    DigitsText(n);
    LaidForm(Digits(n), e);
    LaidText(Digits(n), e);
  }

  /** The text of a finite double other than zero: its sign, and in general notation the number of fifteen
      digits nearest to it. */
  lemma PrintedText(d: Double) returns (e: int, l: Layout)
    requires d.Finite? && d.significand > 0
    ensures Decimal(Magnitude(d)) > 0.0 && e == Log(10, Decimal(Magnitude(d)))
    ensures IsGeneral(l, e) && DecimalCodes(l.whole + l.fraction) && LaidValue(l, e) == Decimal(Magnitude(d))
    ensures PrintDouble(d) == (if d.negative then ['-'] else []) + Laid(l, e)
  {
    var x := Magnitude(d);
    DecimalUnits(x);
    StrippedEnd(Units(10, x, DecimalExponent(x)), DecimalExponent(x));
    e, l := GeneralText(DigitsOf(x).n, DigitsOf(x).k);
  }

  /** The texts of the doubles that have no first digit. */
  lemma PrintedWords(d: Double)
    ensures d.Finite? && d.significand == 0 ==> PrintDouble(d) == if d.negative then "-0" else "0"
    ensures d.Infinite? ==> PrintDouble(d) == if d.negative then "-inf" else "inf"
    ensures d.NaN? ==> PrintDouble(d) == if d.negative then "-nan" else "nan"
  {
  }

  /* Integers */

  lemma OneMoreZero(m: nat, k: nat, digits: Bytes)
    requires m > 0 && k > 0 && Digits(m) == digits + Zeros(k - 1)
    ensures Digits(10 * m) == digits + Zeros(k)
  {
    assert Digits(10 * m) == Digits(m) + [Digit(0)];
    assert digits + Zeros(k - 1) + [Digit(0)] == digits + Zeros(k);
  }

  lemma TenMore(n: nat, k: nat)
    requires n > 0 && k > 0
    ensures n * Pow(10, k) == 10 * (n * Pow(10, k - 1)) && n * Pow(10, k - 1) > 0
  {
    var p := Pow(10, k - 1);
    assert Pow(10, k) == 10 * p;
    assert n * (10 * p) == 10 * (n * p);
  }

  lemma {:induction false} TenTimes(n: nat, k: nat)
    requires n > 0
    ensures n * Pow(10, k) > 0 && Digits(n * Pow(10, k)) == Digits(n) + Zeros(k)
    decreases k
  {
    if k == 0 {
      assert Digits(n) + Zeros(0) == Digits(n);
    } else {
      TenTimes(n, k - 1);
      TenMore(n, k);
      OneMoreZero(n * Pow(10, k - 1), k, Digits(n));
    }
  }

  lemma WholeProduct(n: nat, p: nat, m: nat)
    requires n as real == p as real * m as real
    ensures n == p * m
  {
    assert p as real * m as real == (p * m) as real;
  }

  /** A number without trailing zeros that is an integer is not a multiple of a negative power of ten. */
  lemma NoFraction(n: nat, k: int, m: nat)
    requires n % 10 != 0 && Scale(10, n as real, k) == m as real
    ensures k >= 0 && n * Pow(10, k) == m
  {
    if k < 0 {
      ScaleBack(10, n as real, k);
      ScaleIsProduct(10, m as real, -k);
      WholeProduct(n, Pow(10, -k), m);
      TenDivides(Pow(10, -k - 1), m);
      assert false;
    }
    ScaleIsProduct(10, n as real, k);
    WholeProduct(m, Pow(10, k), n);
  }

  lemma TenDivides(p: nat, m: nat)
    ensures (10 * p * m) % 10 == 0
  {
    assert 10 * p * m == 10 * (p * m);
  }

  /** An integer below 10^15 is printed as its digits, with its sign. */
  lemma PrintedInteger(d: Double, m: nat)
    requires d.Finite? && Magnitude(d) == m as real && 0 < m < 1_000_000_000_000_000
    ensures PrintDouble(d) == (if d.negative then ['-'] else []) + Digits(m)
  {
    var x := Magnitude(d);
    IntegerIsExact(m);
    DecimalUnits(x);
    StrippedEnd(Units(10, x, DecimalExponent(x)), DecimalExponent(x));
    var n, k := DigitsOf(x).n, DigitsOf(x).k;
    NoFraction(n, k, m);
    TenTimes(n, k);
    FifteenDigits(m);
    assert |Digits(m)| == |Digits(n)| + k;
  }

  lemma IntegerIsExact(m: nat)
    requires 0 < m < 1_000_000_000_000_000
    ensures Decimal(m as real) == m as real
  {
    var x := m as real;
    var j := DecimalExponent(x);
    DecimalUnits(x);
    Powers();
    if j > 0 {
      if 15 < j + 14 {
        PowerIncreases(10, 15, j + 14);
      }
      assert false;
    }
    ScaleAdd(10, x, -j, j);
    ScaleUp(10, m, -j);
    MultipleIsFixed(10, x, Scale(10, x, -j).Floor, j);
  }

  /** How an integer is printed: with a minus sign if it is negative, and otherwise none. */
  lemma IntegerText(n: int)
    ensures PrintInt(n) == (if n < 0 then ['-'] else []) + Digits(if n < 0 then -n else n)
  {
  }

  /** How operations are printed. */
  lemma OperationSigns()
    ensures OperationText(NOP) == ['N', 'O', 'P']
    ensures OperationText(ADD) == ['+'] && OperationText(SUBTRACT) == ['-']
    ensures OperationText(MULTIPLY) == ['*'] && OperationText(DIVIDE) == ['/']
  {
  }

  /* Words */

  /** The parts of a text between its spaces. */
  function Split(s: Bytes): (words: seq<Bytes>)
    ensures words != []
  {
    if s == [] then [[]]
    else
      var words := Split(s[1..]);
      if s[0] as int == 32 then [[]] + words else [[s[0]] + words[0]] + words[1..]
  }

  ghost predicate IsWord(t: Bytes) {
    forall i :: 0 <= i < |t| ==> t[i] as int != 32
  }

  lemma {:induction false} OneWord(t: Bytes)
    requires IsWord(t)
    ensures Split(t) == [t]
    decreases |t|
  {
    if t != [] {
      OneWord(t[1..]);
      assert [t[0]] + t[1..] == t;
    }
  }

  lemma {:induction false} FirstWord(t: Bytes, rest: Bytes)
    requires IsWord(t)
    ensures Split(t + ([' '] + rest)) == [t] + Split(rest)
    decreases |t|
  {
    var s := t + ([' '] + rest);
    if t == [] {
      assert s == [' '] + rest && s[1..] == rest;
    } else {
      assert s[1..] == t[1..] + ([' '] + rest);
      FirstWord(t[1..], rest);
      assert [t[0]] + t[1..] == t;
      assert ([t[1..]] + Split(rest))[1..] == Split(rest);
    }
  }

  lemma Separated(a: Bytes, b: Bytes, c: Bytes, d: Bytes)
    ensures a + " " + b + " " + c + " " + d == a + ([' '] + (b + ([' '] + (c + ([' '] + d)))))
  {
  }

  lemma FourWords(a: Bytes, b: Bytes, c: Bytes, d: Bytes)
    requires IsWord(a) && IsWord(b) && IsWord(c) && IsWord(d)
    ensures Split(a + " " + b + " " + c + " " + d) == [a, b, c, d]
  {
    Separated(a, b, c, d);
    FirstWord(a, b + ([' '] + (c + ([' '] + d))));
    FirstWord(b, c + ([' '] + d));
    FirstWord(c, d);
    OneWord(d);
  }
}
