/** Octets, and the blanks that formatted input skips. */
module Text {

  /** One octet, in a text or on the wire. */
  type Byte = c: char | c as int < 256

  type Bytes = seq<Byte>

  predicate IsSpace(c: char) {
    c == ' ' || '\t' <= c <= '\r'
  }

  function SkipSpace(s: Bytes): (r: Bytes)
    ensures |r| <= |s|
    ensures r != [] ==> !IsSpace(r[0])
  {
    if s != [] && IsSpace(s[0]) then SkipSpace(s[1..]) else s
  }

  /** Blanks told by their codes: the space, and the tab up to the carriage return. */
  predicate BlankCodes(t: Bytes) {
    forall i :: 0 <= i < |t| ==> t[i] as int == 32 || 9 <= t[i] as int <= 13
  }

  lemma {:induction false} BlankCodesAreSkipped(blanks: Bytes, s: Bytes)
    requires BlankCodes(blanks)
    ensures SkipSpace(blanks + s) == SkipSpace(s)
    decreases |blanks|
  {
    if blanks == [] {
      assert blanks + s == s;
    } else {
      assert (blanks + s)[1..] == blanks[1..] + s;
      BlankCodesAreSkipped(blanks[1..], s);
    }
  }
}
