/**
 C text. A C `char` is a Dafny `char`: byte values 0 to 255 are the characters with those
 codes, and nothing here depends on a character being below 256 unless it says so. Character
 classes are those of the C locale.
 */
module CText {

  datatype Option<+T> = None | Some(value: T)

  /** One byte of binary data. */
  type byte = c: char | c as int < 256

  const NUL: char := '\0'

  predicate IsDigit(c: char) { '0' <= c <= '9' }

  predicate IsAlpha(c: char) { 'a' <= c <= 'z' || 'A' <= c <= 'Z' }

  predicate IsAlnum(c: char) { IsAlpha(c) || IsDigit(c) }

  /** A hex digit's value, in either case, or 16. */
  function HexDigit(c: char): (r: nat)
    ensures r <= 16
  {
    if '0' <= c <= '9' then c as int - 48
    else if 'a' <= c <= 'f' then c as int - 87
    else if 'A' <= c <= 'F' then c as int - 55
    else 16
  }

  /** Blank, tab, newline, vertical tab, form feed and carriage return. */
  predicate IsSpace(c: char) { c == ' ' || 9 <= c as int <= 13 }

  function ToUpper(c: char): char {
    if 'a' <= c <= 'z' then (c as int - 32) as char else c
  }

  function Upper(s: string): (r: string)
    ensures |r| == |s|
    ensures forall i :: 0 <= i < |s| ==> r[i] == ToUpper(s[i])
  {
    seq(|s|, i requires 0 <= i < |s| => ToUpper(s[i]))
  }

  /** What a `char *` at the start of these bytes denotes: everything before the first NUL. */
  function CStr(s: string): (r: string)
    ensures |r| <= |s| && r == s[..|r|]
    ensures forall i :: 0 <= i < |r| ==> r[i] != NUL
    ensures |r| == |s| || s[|r|] == NUL
  {
    if s == [] || s[0] == NUL then []
    else
      var rest := CStr(s[1..]);
      [s[0]] + rest
  }

  predicate NulFree(s: string) { forall i :: 0 <= i < |s| ==> s[i] != NUL }

  lemma CStrOfNulFree(s: string)
    requires NulFree(s)
    ensures CStr(s) == s
  {}

  /** `text` stands in `s` at position `c`. */
  predicate At(s: string, c: nat, text: string) {
    c + |text| <= |s| && s[c..c + |text|] == text
  }

  lemma AtSplit(s: string, c: nat, x: string, y: string)
    ensures At(s, c, x + y) <==> At(s, c, x) && At(s, c + |x|, y)
  {
    if At(s, c, x) && At(s, c + |x|, y) {
      assert s[c..c + |x + y|] == s[c..c + |x|] + s[c + |x|..c + |x| + |y|];
    }
    if At(s, c, x + y) {
      var w := s[c..c + |x + y|];
      assert s[c..c + |x|] == w[..|x|] == x;
      assert s[c + |x|..c + |x| + |y|] == w[|x|..] == y;
    }
  }

  /** The decimal digits of a count, as `%ld` prints a number that is not negative. */
  function Decimal(n: nat): (r: string)
    ensures |r| > 0
    ensures forall i :: 0 <= i < |r| ==> IsDigit(r[i])
  {
    var last := [(n % 10 + 48) as char];
    if n < 10 then last else Decimal(n / 10) + last
  }

  /** The number a run of decimal digits stands for. */
  function DecimalValue(s: string): nat
    requires forall i :: 0 <= i < |s| ==> IsDigit(s[i])
  {
    if s == [] then 0
    else
      assert IsDigit(s[|s| - 1]);
      10 * DecimalValue(s[..|s| - 1]) + (s[|s| - 1] as int - 48)
  }

  lemma {:induction false} DecimalRoundTrip(n: nat)
    ensures DecimalValue(Decimal(n)) == n
  {
    var s := Decimal(n);
    if n < 10 {
      assert s[..|s| - 1] == [];
    } else {
      assert s[..|s| - 1] == Decimal(n / 10);
      DecimalRoundTrip(n / 10);
    }
  }

  // ---------------------------------------------------------------- the classes, character by character

  const SMALL := "abcdefghijklmnopqrstuvwxyz"
  const CAPITALS := "ABCDEFGHIJKLMNOPQRSTUVWXYZ"
  const DIGITS := "0123456789"

  /** The letters, and the capital of each small one; `toupper` leaves every other character alone. */
  lemma LettersAndCapitals(c: char)
    ensures IsAlpha(c) <==> c in SMALL || c in CAPITALS
    ensures forall i :: 0 <= i < 26 ==> ToUpper(SMALL[i]) == CAPITALS[i]
    ensures c !in SMALL ==> ToUpper(c) == c
  {
    forall i | 0 <= i < 26
      ensures SMALL[i] as int == 97 + i && CAPITALS[i] as int == 65 + i
    {
    }
    if 'a' <= c <= 'z' {
      assert SMALL[c as int - 97] == c;
    }
    if 'A' <= c <= 'Z' {
      assert CAPITALS[c as int - 65] == c;
    }
  }

  /** The digits, their values, and those of the hex letters in either case. */
  lemma DigitsAndHex(c: char)
    ensures IsDigit(c) <==> c in DIGITS
    ensures forall i :: 0 <= i < 10 ==> HexDigit(DIGITS[i]) == i
    ensures forall i :: 0 <= i < 6 ==> HexDigit(SMALL[i]) == 10 + i && HexDigit(CAPITALS[i]) == 10 + i
    ensures c !in DIGITS && c !in SMALL[..6] && c !in CAPITALS[..6] ==> HexDigit(c) == 16
  {
    forall i | 0 <= i < 10
      ensures DIGITS[i] as int == 48 + i
    {
    }
    forall i | 0 <= i < 6
      ensures SMALL[i] as int == 97 + i && CAPITALS[i] as int == 65 + i
    {
    }
    if '0' <= c <= '9' {
      assert DIGITS[c as int - 48] == c;
    }
    if 'a' <= c <= 'f' {
      assert SMALL[..6][c as int - 97] == c;
    }
    if 'A' <= c <= 'F' {
      assert CAPITALS[..6][c as int - 65] == c;
    }
  }

  /** The six blanks of `isspace`. */
  lemma Spaces(c: char)
    ensures IsSpace(c) <==> c in " \t\n\r" || c as int == 11 || c as int == 12
  {}
}
