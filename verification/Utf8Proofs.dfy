/**
 Escapes and UTF-8: an escaped Unicode scalar value comes out as its encoding by section 3 of
 RFC 3629, whichever way section 7 of RFC 8259 lets it be escaped.
 */
module Utf8Proofs {
  import opened CText
  import opened Json

  /** A Unicode scalar value: a code point that is no surrogate. */
  predicate IsScalar(cp: nat) { cp < 0xD800 || 0xE000 <= cp <= 0x10_FFFF }

  /** A continuation byte 10xxxxxx. */
  predicate IsTail(c: char) { 0x80 <= c as int <= 0xBF }

  function Low6(c: char): nat
    requires IsTail(c)
  {
    c as int - 0x80
  }

  /**
   Decoding by the table of RFC 3629, section 3: the bytes of one character, in the shortest form,
   and never a surrogate.
   */
  function Decode(b: string): Option<nat> {
    if |b| == 1 && b[0] as int < 0x80 then Some(b[0] as int)
    else if |b| == 2 && 0xC0 <= b[0] as int < 0xE0 && IsTail(b[1]) then
      Within((b[0] as int - 0xC0) * 0x40 + Low6(b[1]), 0x80)
    else if |b| == 3 && 0xE0 <= b[0] as int < 0xF0 && IsTail(b[1]) && IsTail(b[2]) then
      Within(((b[0] as int - 0xE0) * 0x40 + Low6(b[1])) * 0x40 + Low6(b[2]), 0x800)
    else if |b| == 4 && 0xF0 <= b[0] as int < 0xF8 && IsTail(b[1]) && IsTail(b[2]) && IsTail(b[3]) then
      Within((((b[0] as int - 0xF0) * 0x40 + Low6(b[1])) * 0x40 + Low6(b[2])) * 0x40 + Low6(b[3]), 0x1_0000)
    else None
  }

  /** A decoded value that needed this many bytes and is a scalar. */
  function Within(cp: nat, least: nat): Option<nat> {
    if least <= cp && IsScalar(cp) then Some(cp) else None
  }

  /** The encoder writes what the decoder reads. */
  lemma DecodeOfUtf8(cp: nat)
    requires IsScalar(cp)
    ensures Decode(Utf8(cp)) == Some(cp)
  {
    if cp < 0x80 {
    } else if cp < 0x800 {
      assert cp == cp / 0x40 * 0x40 + cp % 0x40;
    } else if cp < 0x1_0000 {
      SixBits(cp, 0x40);
    } else {
      SixBits(cp, 0x40);
      SixBits(cp / 0x40, 0x40);
    }
  }

  /** The two lowest groups of six bits. */
  lemma SixBits(cp: nat, k: nat)
    requires k == 0x40
    ensures cp / k / k == cp / 0x1000 && cp / 0x1000 / k == cp / 0x4_0000
    ensures cp == (cp / 0x1000 * k + cp / k % k) * k + cp % k
  {}

  /** Four hex digits of either case, read as a number. */
  predicate HexAt(s: string, c: nat, cp: nat) {
    c <= |s| && Hex4(s, c) == Parsed(cp, c + 4)
  }

  predicate EscapeAt(s: string, c: nat, cp: nat) {
    At(s, c, "\\u") && HexAt(s, c + 2, cp)
  }

  /** A scalar of the basic plane, written as one escape. */
  lemma OneEscape(s: string, c: nat, cp: nat)
    requires EscapeAt(s, c, cp) && IsScalar(cp)
    ensures c < |s| && StringUnit(s, c).Parsed? && StringUnit(s, c).next == c + 6
    ensures Decode(StringUnit(s, c).value) == Some(cp)
  {
    assert s[c] == s[c..c + 2][0] && s[c + 1] == s[c..c + 2][1];
    DecodeOfUtf8(cp);
  }

  /** A scalar beyond it, written as a surrogate pair: both escapes are consumed, one scalar comes out. */
  lemma PairEscape(s: string, c: nat, cp: nat)
    requires 0x1_0000 <= cp <= 0x10_FFFF
    requires EscapeAt(s, c, 0xD800 + (cp - 0x1_0000) / 0x400)
    requires EscapeAt(s, c + 6, 0xDC00 + (cp - 0x1_0000) % 0x400)
    ensures c < |s| && StringUnit(s, c).Parsed? && StringUnit(s, c).next == c + 12
    ensures Decode(StringUnit(s, c).value) == Some(cp)
  {
    assert s[c] == s[c..c + 2][0] && s[c + 1] == s[c..c + 2][1];
    assert s[c + 6] == s[c + 6..c + 8][0] && s[c + 7] == s[c + 6..c + 8][1];
    DecodeOfUtf8(cp);
  }
}
