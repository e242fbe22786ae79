/** The 8-character header of a frame: a size, printed in hexadecimal, right-justified
    and filled with blanks; and the `istringstream >> hex >> size_t` that reads it back. */
module HexHeader {
  import opened Wrappers
  import opened Text

  const HEADER_LENGTH: nat := 8
  const SIZE_LIMIT: nat := 0x1_0000_0000
  const WORD: nat := 0x1_0000_0000_0000_0000

  function Pow16(k: nat): (p: nat)
    ensures p >= 1
  {
    if k == 0 then 1 else 16 * Pow16(k - 1)
  }

  function HexDigit(d: nat): Byte
    requires d < 16
  {
    if d < 10 then ('0' as int + d) as char else ('a' as int + d - 10) as char
  }

  /** `std::hex << n`: no leading zeros. */
  function Hex(n: nat): (s: Bytes)
  {
    if n < 16 then [HexDigit(n)] else Hex(n / 16) + [HexDigit(n % 16)]
  }

  function Blanks(k: nat): (s: Bytes)
    ensures |s| == k && forall i :: 0 <= i < k ==> s[i] == ' '
  {
    seq(k, _ => ' ')
  }

  /** `setw(8)`: pad on the left, never cut. */
  function Padded(n: nat): Bytes {
    var digits := Hex(n);
    if |digits| >= HEADER_LENGTH then digits else Blanks(HEADER_LENGTH - |digits|) + digits
  }

  /** The header of an `n`-byte body; none when the text does not have exactly eight characters. */
  function PrintHeader(n: nat): (h: Option<Bytes>)
    ensures h.Some? ==> |h.value| == HEADER_LENGTH
  {
    if |Padded(n)| != HEADER_LENGTH then None else Some(Padded(n))
  }

  function HexValue(c: Byte): (v: Option<nat>)
    ensures v.Some? ==> v.value < 16
  {
    if '0' <= c <= '9' then Some(c as int - '0' as int)
    else if 'a' <= c <= 'f' then Some(c as int - 'a' as int + 10)
    else if 'A' <= c <= 'F' then Some(c as int - 'A' as int + 10)
    else None
  }

  /** The longest run of hexadecimal digits at the front. */
  function DigitRun(s: Bytes): (r: Bytes)
    ensures |r| <= |s|
    ensures forall i :: 0 <= i < |r| ==> HexValue(r[i]).Some?
  {
    if s != [] && HexValue(s[0]).Some? then [s[0]] + DigitRun(s[1..]) else []
  }

  function HexToNat(s: Bytes): nat
    requires forall i :: 0 <= i < |s| ==> HexValue(s[i]).Some?
  {
    if s == [] then 0 else 16 * HexToNat(s[..|s| - 1]) + HexValue(s[|s| - 1]).value
  }

  /** The hexadecimal field after the blanks: its sign, and its text without an optional "0x". */
  function Negative(s: Bytes): bool {
    s != [] && s[0] == '-'
  }

  function AfterSign(s: Bytes): (r: Bytes)
    ensures |r| <= |s|
  {
    if s != [] && (s[0] == '-' || s[0] == '+') then s[1..] else s
  }

  function AfterPrefix(s: Bytes): (r: Bytes)
    ensures |r| <= |s|
  {
    if |s| >= 2 && s[0] == '0' && (s[1] == 'x' || s[1] == 'X') then s[2..] else s
  }

  /** `is >> hex >> size` on a header: blanks are skipped, a sign and a "0x" are accepted, the
      digits stop at the first other character, a field without digits fails, and a minus sign
      negates modulo 2^64. */
  function ParseSize(h: Bytes): (size: Option<nat>)
    requires |h| == HEADER_LENGTH
  {
    ParseField(SkipSpace(h))
  }

  function ParseField(field: Bytes): (size: Option<nat>)
    requires |field| <= HEADER_LENGTH
  {
    var digits := DigitRun(AfterPrefix(AfterSign(field)));
    if digits == [] then None
    else if Negative(field) then Some(NegateWord(digits))
    else Some(HexToNat(digits))
  }

  /** Unsigned negation of a 64-bit word. */
  function NegateWord(digits: Bytes): nat
    requires |digits| <= HEADER_LENGTH
    requires forall i :: 0 <= i < |digits| ==> HexValue(digits[i]).Some?
  {
    HexToNatBelow(digits);
    var v := HexToNat(digits);
    if v == 0 then 0 else WORD - v
  }

  lemma {:induction false} HexToNatBound(s: Bytes)
    requires forall i :: 0 <= i < |s| ==> HexValue(s[i]).Some?
    ensures HexToNat(s) < Pow16(|s|)
  {
    if s != [] {
      HexToNatBound(s[..|s| - 1]);
    }
  }

  lemma {:induction false} Pow16Monotone(j: nat, k: nat)
    requires j <= k
    ensures Pow16(j) <= Pow16(k)
  {
    if j < k {
      Pow16Monotone(j, k - 1);
    }
  }

  lemma SixteenToTheEighth()
    ensures Pow16(8) == SIZE_LIMIT
  {
    assert Pow16(4) == 0x1_0000;
    assert Pow16(6) == 256 * Pow16(4);
    assert Pow16(8) == 256 * Pow16(6);
  }

  lemma HexToNatBelow(s: Bytes)
    requires |s| <= HEADER_LENGTH
    requires forall i :: 0 <= i < |s| ==> HexValue(s[i]).Some?
    ensures HexToNat(s) < SIZE_LIMIT
  {
    HexToNatBound(s);
    Pow16Monotone(|s|, 8);
    SixteenToTheEighth();
  }

  /* Header arithmetic */

  lemma {:induction false} HexLength(n: nat, k: nat)
    requires k >= 1
    ensures |Hex(n)| <= k <==> n < Pow16(k)
    ensures |Hex(n)| >= 1
    decreases n
  {
    assert Pow16(k) == 16 * Pow16(k - 1);
    if n >= 16 {
      if k == 1 {
        assert Pow16(1) == 16 * Pow16(0);
        HexLength(n / 16, 1);
      } else {
        HexLength(n / 16, k - 1);
      }
    }
  }

  lemma {:induction false} HexDigits(n: nat)
    ensures forall i :: 0 <= i < |Hex(n)| ==> HexValue(Hex(n)[i]).Some?
    ensures HexToNat(Hex(n)) == n
    decreases n
  {
    if n >= 16 {
      HexDigits(n / 16);
      assert Hex(n)[..|Hex(n)| - 1] == Hex(n / 16);
    } else {
      assert Hex(n)[..0] == [];
    }
  }

  /** A header can be printed exactly for the sizes below 16^8. */
  lemma HeaderPrintsExactly(n: nat)
    ensures PrintHeader(n).Some? <==> n < SIZE_LIMIT
  {
    HexLength(n, 8);
    SixteenToTheEighth();
  }

  lemma {:induction false} SkipBlanks(k: nat, s: Bytes)
    requires s != [] && !IsSpace(s[0])
    ensures SkipSpace(Blanks(k) + s) == s
  {
    if k == 0 {
      assert Blanks(0) + s == s;
    } else {
      assert (Blanks(k) + s)[1..] == Blanks(k - 1) + s;
      SkipBlanks(k - 1, s);
    }
  }

  lemma {:induction false} AllDigits(s: Bytes)
    requires forall i :: 0 <= i < |s| ==> HexValue(s[i]).Some?
    ensures DigitRun(s) == s
  {
    if s != [] {
      AllDigits(s[1..]);
      assert s == [s[0]] + s[1..];
    }
  }

  /** A padded run of digits is read as the number its digits denote. */
  lemma PaddedDigitsParse(h: Bytes, digits: Bytes)
    requires 1 <= |digits| <= HEADER_LENGTH
    requires h == Blanks(HEADER_LENGTH - |digits|) + digits
    requires forall i :: 0 <= i < |digits| ==> HexValue(digits[i]).Some?
    ensures ParseSize(h) == Some(HexToNat(digits))
  {
    assert HexValue(digits[0]).Some?;
    assert SkipSpace(h) == digits by {
      SkipBlanks(HEADER_LENGTH - |digits|, digits);
    }
    assert AfterPrefix(AfterSign(digits)) == digits by {
      assert |digits| >= 2 ==> HexValue(digits[1]).Some?;
    }
    assert DigitRun(digits) == digits by {
      AllDigits(digits);
    }
    assert !Negative(digits);
  }

  /** Reading a printed header gives the size back. */
  lemma HeaderRoundTrip(n: nat)
    requires PrintHeader(n).Some?
    ensures ParseSize(PrintHeader(n).value) == Some(n)
  {
    HexLength(n, 8);
    HexDigits(n);
    assert Blanks(0) + Hex(n) == Hex(n);
    PaddedDigitsParse(PrintHeader(n).value, Hex(n));
  }

  /** The digits of the field in a header. */
  function FieldDigits(h: Bytes): (digits: Bytes)
    ensures forall i :: 0 <= i < |digits| ==> HexValue(digits[i]).Some?
  {
    DigitRun(AfterPrefix(AfterSign(SkipSpace(h))))
  }

  predicate AllZero(digits: Bytes) {
    forall i :: 0 <= i < |digits| ==> HexValue(digits[i]) == Some(0)
  }

  lemma {:induction false} ZeroDigits(s: Bytes)
    requires forall i :: 0 <= i < |s| ==> HexValue(s[i]).Some?
    ensures HexToNat(s) == 0 <==> AllZero(s)
  {
    if s != [] {
      var last := |s| - 1;
      ZeroDigits(s[..last]);
      assert forall i :: 0 <= i < last ==> s[..last][i] == s[i];
    }
  }

  /** Whatever the eight characters are, a size read from them is below 16^8 exactly when the field does
      not start with a minus sign or all its digits are zero; otherwise it is close to 2^64. */
  lemma ParsedSizeBound(h: Bytes)
    requires |h| == HEADER_LENGTH && ParseSize(h).Some?
    ensures ParseSize(h).value < SIZE_LIMIT <==> !Negative(SkipSpace(h)) || AllZero(FieldDigits(h))
    ensures ParseSize(h).value >= SIZE_LIMIT ==> ParseSize(h).value > WORD - SIZE_LIMIT
  {
    HexToNatBelow(FieldDigits(h));
    ZeroDigits(FieldDigits(h));
  }

  /** A header that announces a body of 2^64 - 1 bytes. */
  lemma MinusOneIsHuge()
    ensures ParseSize("      -1") == Some(WORD - 1)
  {
    var h: Bytes := "      -1";
    var field: Bytes := "-1";
    assert h == Blanks(6) + field;
    SkipBlanks(6, field);
    assert AfterPrefix(AfterSign(field)) == "1";
    AllDigits("1");
    assert HexToNat("1") == 16 * HexToNat([]) + 1;
  }

  lemma FiveIsRead()
    ensures ParseSize("       5") == Some(5)
  {
    var h: Bytes := "       5";
    var digits: Bytes := "5";
    assert h == Blanks(7) + digits;
    PaddedDigitsParse(h, digits);
    assert HexToNat(digits) == 16 * HexToNat([]) + 5;
  }

  /* Headers told by the codes of their characters */

  predicate IsHexCode(c: int) {
    48 <= c <= 57 || 65 <= c <= 70 || 97 <= c <= 102
  }

  function HexCodeValue(c: int): nat
    requires IsHexCode(c)
  {
    if c <= 57 then c - 48 else if c <= 70 then c - 55 else c - 87
  }

  predicate HexCodes(t: Bytes) {
    forall i :: 0 <= i < |t| ==> IsHexCode(t[i] as int)
  }

  function Hexadecimal(t: Bytes): nat
    requires HexCodes(t)
  {
    if t == [] then 0 else 16 * Hexadecimal(t[..|t| - 1]) + HexCodeValue(t[|t| - 1] as int)
  }

  lemma {:induction false} HexadecimalIsRead(t: Bytes)
    requires HexCodes(t)
    ensures forall i :: 0 <= i < |t| ==> HexValue(t[i]) == Some(HexCodeValue(t[i] as int))
    ensures HexToNat(t) == Hexadecimal(t)
  {
    if t != [] {
      HexadecimalIsRead(t[..|t| - 1]);
    }
  }

  lemma {:induction false} HexText(n: nat)
    ensures |Hex(n)| > 0 && HexCodes(Hex(n)) && Hexadecimal(Hex(n)) == n
    ensures forall i :: 0 <= i < |Hex(n)| ==> !(65 <= Hex(n)[i] as int <= 70)
    ensures n > 0 ==> Hex(n)[0] as int != 48
    ensures n == 0 ==> |Hex(n)| == 1
    decreases n
  {
    if n >= 16 {
      HexText(n / 16);
      assert Hex(n)[..|Hex(n)| - 1] == Hex(n / 16);
    } else {
      assert Hex(n)[..0] == [];
    }
  }

  /** The text of a header: `blanks` times character 32, then digits 0 to 9 and a to f that denote the
      size, without leading zeros. */
  ghost predicate IsHeaderOf(h: Bytes, n: nat, blanks: nat) {
    && |h| == 8 && blanks < 8
    && (forall i :: 0 <= i < blanks ==> h[i] as int == 32)
    && (forall i :: blanks <= i < 8 ==> 48 <= h[i] as int <= 57 || 97 <= h[i] as int <= 102)
    && HexCodes(h[blanks..]) && Hexadecimal(h[blanks..]) == n
    && (if n == 0 then blanks == 7 else h[blanks] as int != 48)
  }

  lemma BlanksThenDigits(blanks: nat, digits: Bytes)
    requires blanks + |digits| == 8 && HexCodes(digits)
    requires forall i :: 0 <= i < |digits| ==> !(65 <= digits[i] as int <= 70)
    ensures var h := Blanks(blanks) + digits;
            && |h| == 8 && h[blanks..] == digits
            && (forall i :: 0 <= i < blanks ==> h[i] as int == 32)
            && (forall i :: blanks <= i < 8 ==> 48 <= h[i] as int <= 57 || 97 <= h[i] as int <= 102)
  {
    var h := Blanks(blanks) + digits;
    assert h[blanks..] == digits;
    forall i | blanks <= i < 8 ensures 48 <= h[i] as int <= 57 || 97 <= h[i] as int <= 102 {
      assert h[i] == digits[i - blanks] && IsHexCode(digits[i - blanks] as int);
    }
  }

  lemma HeaderShape(n: nat)
    requires PrintHeader(n).Some?
    ensures 0 < |Hex(n)| <= 8 && PrintHeader(n).value == Blanks(8 - |Hex(n)|) + Hex(n)
  {
    HexLength(n, 8);
    assert Blanks(0) + Hex(n) == Hex(n);
  }

  /** What is printed for every size that can be printed. */
  lemma HeaderText(n: nat) returns (blanks: nat)
    requires PrintHeader(n).Some?
    ensures IsHeaderOf(PrintHeader(n).value, n, blanks)
  {
    HeaderShape(n);
    HexText(n);
    blanks := 8 - |Hex(n)|;
    BlanksThenDigits(blanks, Hex(n));
  }

  lemma {:induction false} RunOfDigits(digits: Bytes, tail: Bytes)
    requires HexCodes(digits) && (tail == [] || !IsHexCode(tail[0] as int))
    ensures DigitRun(digits + tail) == digits
    decreases |digits|
  {
    if digits == [] {
      assert digits + tail == tail;
    } else {
      assert (digits + tail)[1..] == digits[1..] + tail;
      RunOfDigits(digits[1..], tail);
    }
  }

  /** A field: a sign or none, "0x" or none, hexadecimal digits of either case, and what follows them. */
  function FieldText(sign: Bytes, prefix: Bytes, digits: Bytes, tail: Bytes): Bytes {
    sign + (prefix + (digits + tail))
  }

  predicate IsFieldText(sign: Bytes, prefix: Bytes, digits: Bytes, tail: Bytes) {
    && sign in {"", "+", "-"} && prefix in {"", "0x", "0X"}
    && HexCodes(digits) && (tail == [] || !IsHexCode(tail[0] as int))
    && (prefix == "" && digits == "0" ==> tail == [] || tail[0] !in {'x', 'X'})
    && (prefix == "" && digits == "" && sign == "" && tail != [] ==> tail[0] !in {'+', '-'} && !BlankCodes(tail[..1]))
  }

  lemma PrefixIsPassed(prefix: Bytes, digits: Bytes, tail: Bytes)
    requires IsFieldText("", prefix, digits, tail) || IsFieldText("+", prefix, digits, tail)
    ensures AfterPrefix(prefix + (digits + tail)) == digits + tail
  {
    var rest := prefix + (digits + tail);
    if prefix == "" {
      assert rest == digits + tail;
    } else {
      assert rest[2..] == digits + tail;
    }
  }

  lemma SignIsPassed(sign: Bytes, prefix: Bytes, digits: Bytes, tail: Bytes)
    requires IsFieldText(sign, prefix, digits, tail)
    ensures var field := FieldText(sign, prefix, digits, tail);
            && SkipSpace(field) == field && (Negative(field) <==> sign == "-")
            && AfterSign(field) == prefix + (digits + tail)
  {
    var field, rest := FieldText(sign, prefix, digits, tail), prefix + (digits + tail);
    if sign == "" {
      assert field == rest;
    } else {
      assert field[1..] == rest;
    }
  }

  lemma Negated(digits: Bytes)
    requires |digits| <= 8 && HexCodes(digits)
    requires forall i :: 0 <= i < |digits| ==> HexValue(digits[i]).Some?
    ensures NegateWord(digits) == (0x1_0000_0000_0000_0000 - Hexadecimal(digits)) % 0x1_0000_0000_0000_0000
  {
    HexadecimalIsRead(digits);
    HexToNatBelow(digits);
  }

  lemma FieldMeans(sign: Bytes, prefix: Bytes, digits: Bytes, tail: Bytes)
    requires IsFieldText(sign, prefix, digits, tail) && |FieldText(sign, prefix, digits, tail)| <= 8
    ensures ParseField(FieldText(sign, prefix, digits, tail))
         == if digits == [] then None
            else Some(if sign == "-" then (0x1_0000_0000_0000_0000 - Hexadecimal(digits)) % 0x1_0000_0000_0000_0000
                      else Hexadecimal(digits))
  {
    SignIsPassed(sign, prefix, digits, tail);
    PrefixIsPassed(prefix, digits, tail);
    RunOfDigits(digits, tail);
    HexadecimalIsRead(digits);
    Negated(digits);
  }

  /** What any header means: the blanks before its field are skipped, a field without digits is refused,
      and one with digits is the number they denote, or with a minus sign its negation modulo 2^64. */
  lemma HeaderMeans(blanks: Bytes, sign: Bytes, prefix: Bytes, digits: Bytes, tail: Bytes)
    requires BlankCodes(blanks) && IsFieldText(sign, prefix, digits, tail)
    requires |blanks + FieldText(sign, prefix, digits, tail)| == 8
    ensures ParseSize(blanks + FieldText(sign, prefix, digits, tail))
         == if digits == [] then None
            else Some(if sign == "-" then (0x1_0000_0000_0000_0000 - Hexadecimal(digits)) % 0x1_0000_0000_0000_0000
                      else Hexadecimal(digits))
  {
    BlankCodesAreSkipped(blanks, FieldText(sign, prefix, digits, tail));
    SignIsPassed(sign, prefix, digits, tail);
    FieldMeans(sign, prefix, digits, tail);
  }
}
