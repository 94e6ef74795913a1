/**
 The literals of src/frostlake_sql.c: what counts as a number, how strings and bytes are quoted,
 and that the scanner reads a quoted literal back as exactly the text that was bound.
 */
module Literals {
  import opened CText
  import Scanner
  import opened StringBuffer

  // ---------------------------------------------------------------- numbers

  /** A recogniser of SQL numeric literals, blanks around them allowed. */
  datatype Numeral = Start | Signed | Whole | Point | Fraction | Exp | ExpSigned | ExpDigits | Trailing | Dead

  predicate IsBlank(c: char) { c == ' ' || c == '\t' }

  function Next(n: Numeral, c: char): Numeral {
    var sign := c == '+' || c == '-';
    var exp := c == 'e' || c == 'E';
    match n
    case Start =>
      if IsBlank(c) then Start else if sign then Signed else if IsDigit(c) then Whole
      else if c == '.' then Point else Dead
    case Signed => if IsDigit(c) then Whole else if c == '.' then Point else Dead
    case Whole =>
      if IsDigit(c) then Whole else if c == '.' then Fraction else if exp then Exp
      else if IsBlank(c) then Trailing else Dead
    case Point => if IsDigit(c) then Fraction else Dead
    case Fraction => if IsDigit(c) then Fraction else if exp then Exp else if IsBlank(c) then Trailing else Dead
    case Exp => if sign then ExpSigned else if IsDigit(c) then ExpDigits else Dead
    case ExpSigned => if IsDigit(c) then ExpDigits else Dead
    case ExpDigits => if IsDigit(c) then ExpDigits else if IsBlank(c) then Trailing else Dead
    case Trailing => if IsBlank(c) then Trailing else Dead
    case Dead => Dead
  }

  function RunFrom(n: Numeral, s: string, i: nat): Numeral
    requires i <= |s|
    decreases |s| - i
  {
    if i == |s| then n else RunFrom(Next(n, s[i]), s, i + 1)
  }

  predicate Accepting(n: Numeral) { n.Whole? || n.Fraction? || n.ExpDigits? || n.Trailing? }

  predicate IsNumeric(s: string) { Accepting(RunFrom(Start, s, 0)) }

  /** Blanks to the end leave an accepted numeral accepted, a fresh start unaccepted, all else dead. */
  lemma {:induction false} BlanksAtEnd(n: Numeral, s: string, i: nat)
    requires i <= |s| && forall k :: i <= k < |s| ==> IsBlank(s[k])
    ensures Accepting(RunFrom(n, s, i)) == Accepting(n)
    decreases |s| - i
  {
    if i < |s| {
      BlanksAtEnd(Next(n, s[i]), s, i + 1);
    }
  }

  lemma {:induction false} DeadStays(s: string, i: nat)
    requires i <= |s|
    ensures RunFrom(Dead, s, i) == Dead
    decreases |s| - i
  {
    if i < |s| {
      DeadStays(s, i + 1);
    }
  }

  /** The digit loops of is_numeric_literal. */
  method Digits(text: string, from: nat, end: nat, ghost n: Numeral) returns (i: nat)
    requires from <= end <= |text|
    requires n.Start? || n.Signed? || n.Whole? || n.Point? || n.Fraction? || n.Exp? || n.ExpSigned? || n.ExpDigits?
    ensures from <= i <= end && (i < end ==> !IsDigit(text[i]))
    ensures RunFrom(n, text, from) == RunFrom(if i == from then n else Next(n, '0'), text, i)
  {
    i := from;
    while i < end && IsDigit(text[i])
      invariant from <= i <= end
      invariant RunFrom(n, text, from) == RunFrom(if i == from then n else Next(n, '0'), text, i)
    {
      i := i + 1;
    }
  }

  /** is_numeric_literal. */
  method IsNumericLiteral(text: string) returns (numeric: bool)
    ensures numeric == IsNumeric(text)
  {
    var i, end := 0, |text|;
    while i < end && IsBlank(text[i])
      invariant 0 <= i <= end
      invariant RunFrom(Start, text, i) == RunFrom(Start, text, 0)
    {
      i := i + 1;
    }
    while end > i && IsBlank(text[end - 1])
      invariant i <= end <= |text|
      invariant forall k :: end <= k < |text| ==> IsBlank(text[k])
    {
      end := end - 1;
    }
    if i == end {
      BlanksAtEnd(Start, text, i);
      return false;
    }
    ghost var n := Start;
    if text[i] == '+' || text[i] == '-' {
      i := i + 1;
      n := Signed;
    }
    var digits := 0;
    var from := i;
    i := Digits(text, i, end, n);
    digits := i - from;
    n := if digits == 0 then n else Whole;
    if i < end && text[i] == '.' {
      i := i + 1;
      n := Next(n, '.');
      from := i;
      i := Digits(text, i, end, n);
      n := if i == from then n else Fraction;
      digits := digits + (i - from);
    }
    assert RunFrom(n, text, i) == RunFrom(Start, text, 0);
    if digits == 0 {
      NoDigits(n, text, i, end);
      return false;
    }
    if i < end && (text[i] == 'e' || text[i] == 'E') {
      i := i + 1;
      n := Exp;
      if i < end && (text[i] == '+' || text[i] == '-') {
        i := i + 1;
        n := ExpSigned;
      }
      from := i;
      i := Digits(text, i, end, n);
      if i == from {
        NoDigits(n, text, i, end);
        return false;
      }
      n := ExpDigits;
    }
    if i == end {
      BlanksAtEnd(n, text, i);
    } else {
      MoreFollows(n, text, i, end);
    }
    return i == end;
  }

  /** Where digits must follow and none do, nothing is accepted. */
  lemma NoDigits(n: Numeral, text: string, i: nat, end: nat)
    requires i <= end <= |text| && (i < end ==> !IsDigit(text[i]))
    requires forall k :: end <= k < |text| ==> IsBlank(text[k])
    requires n.Start? || n.Signed? || n.Point? || n.Exp? || n.ExpSigned?
    requires n.Start? ==> i < end && !IsBlank(text[i]) && text[i] != '+' && text[i] != '-' && text[i] != '.'
    requires n.Signed? ==> i < end ==> text[i] != '.'
    requires n.Exp? ==> i < end ==> text[i] != '+' && text[i] != '-'
    ensures !Accepting(RunFrom(n, text, i))
  {
    if i < |text| {
      DeadStays(text, i + 1);
    }
  }

  lemma {:induction false} TrailingThenMore(text: string, i: nat, k: nat)
    requires i <= k < |text| && !IsBlank(text[k])
    ensures !Accepting(RunFrom(Trailing, text, i))
    decreases |text| - i
  {
    if IsBlank(text[i]) {
      TrailingThenMore(text, i + 1, k);
    } else {
      DeadStays(text, i + 1);
    }
  }

  /** A complete number that is not at the end of the text. */
  lemma MoreFollows(n: Numeral, text: string, i: nat, end: nat)
    requires i < end <= |text| && !IsBlank(text[end - 1]) && !IsDigit(text[i])
    requires n.Whole? || n.Fraction? || n.ExpDigits?
    requires n.Whole? ==> text[i] != '.'
    requires !n.ExpDigits? ==> text[i] != 'e' && text[i] != 'E'
    ensures !Accepting(RunFrom(n, text, i))
  {
    if IsBlank(text[i]) {
      TrailingThenMore(text, i + 1, end - 1);
    } else {
      DeadStays(text, i + 1);
    }
  }

  // ---------------------------------------------------------------- strings

  predicate IsSpecial(c: char) { c == '\'' || c == '\\' }

  /** Quotes and backslashes doubled. */
  function Doubled(text: string): string {
    if text == [] then [] else (if IsSpecial(text[0]) then [text[0], text[0]] else [text[0]]) + Doubled(text[1..])
  }

  /** A bound string as a SQL literal. */
  function StringLiteral(text: string): string { "'" + (Doubled(text) + "'") }

  lemma {:induction false} DoubledConcat(a: string, b: string)
    ensures Doubled(a + b) == Doubled(a) + Doubled(b)
    decreases |a|
  {
    if a == [] {
      assert a + b == b;
    } else {
      assert (a + b)[1..] == a[1..] + b;
      DoubledConcat(a[1..], b);
    }
  }

  lemma DoubledStep(text: string, i: nat)
    requires i < |text|
    ensures Doubled(text[..i + 1])
         == Doubled(text[..i]) + (if IsSpecial(text[i]) then [text[i], text[i]] else [text[i]])
  {
    assert text[..i + 1] == text[..i] + [text[i]];
    DoubledConcat(text[..i], [text[i]]);
    assert [text[i]][1..] == [];
  }

  /** append_string_literal: a special character is flushed with the run before it, and again after. */
  method AppendStringLiteral(buf: StrBuf, text: string)
    requires buf.Valid()
    modifies buf.Repr()
    ensures buf.Valid() && fresh(buf.Repr() - old(buf.Repr()))
    ensures buf.Contents() == old(buf.Contents()) + StringLiteral(text)
  {
    hide StrBuf.Valid, StrBuf.Contents, StrBuf.Size, AfterAppend, Doubled;
    ghost var before := buf.Contents();
    buf.Append("'");
    ghost var open := buf.Contents();
    var run := 0;
    NothingDoubled(open, text);
    for i := 0 to |text|
      invariant run <= i
      invariant buf.Valid() && fresh(buf.Repr() - old(buf.Repr()))
      invariant buf.Contents() + text[run..i] == open + Doubled(text[..i])
    {
      ghost var now := buf.Contents();
      DoubledStep(text, i);
      if text[i] == '\'' || text[i] == '\\' {
        buf.Append(text[run..i + 1]);
        RunDoubled(now, text, run, i, open + Doubled(text[..i]));
        run := i;
      } else {
        PlainDoubled(now, text, run, i, open + Doubled(text[..i]));
      }
    }
    assert text[..|text|] == text;
    buf.Append(text[run..|text|]);
    buf.Append("'");
    assert buf.Contents() == before + StringLiteral(text);
  }

  lemma NothingDoubled(open: string, text: string)
    ensures open + text[0..0] == open + Doubled(text[..0])
  {}

  lemma PlainDoubled(now: string, text: string, run: nat, i: nat, done: string)
    requires run <= i < |text| && now + text[run..i] == done
    ensures now + text[run..i + 1] == done + [text[i]]
  {
    assert text[run..i + 1] == text[run..i] + [text[i]];
    assert now + (text[run..i] + [text[i]]) == (now + text[run..i]) + [text[i]];
  }

  lemma RunDoubled(now: string, text: string, run: nat, i: nat, done: string)
    requires run <= i < |text| && now + text[run..i] == done
    ensures (now + text[run..i + 1]) + text[i..i + 1] == done + [text[i], text[i]]
  {
    assert text[run..i + 1] == text[run..i] + [text[i]];
    assert now + (text[run..i] + [text[i]]) == (now + text[run..i]) + [text[i]];
  }

  // ---------------------------------------------------------------- reading a literal back

  /** What the scanner's own rules read in a string whose body continues at `p`. */
  function QuoteText(s: string, p: nat): string
    requires p <= |s|
    decreases |s| - p
  {
    if p == |s| then []
    else if s[p] == '\\' && p + 1 < |s| then [s[p + 1]] + QuoteText(s, p + 2)
    else if s[p] == '\'' then
      if p + 1 < |s| && s[p + 1] == '\'' then ['\''] + QuoteText(s, p + 2) else []
    else [s[p]] + QuoteText(s, p + 1)
  }

  lemma {:induction false} QuoteOfDoubled(text: string, s: string, p: nat)
    requires At(s, p, Doubled(text) + "'")
    requires var q := p + |Doubled(text)| + 1; q == |s| || s[q] != '\''
    ensures Scanner.QuoteEnd(s, p) == p + |Doubled(text)| + 1 && QuoteText(s, p) == text
    decreases |text|
  {
    AtSplit(s, p, Doubled(text), "'");
    if text == [] {
      assert s[p] == s[p..p + 1][0];
    } else {
      var head := if IsSpecial(text[0]) then [text[0], text[0]] else [text[0]];
      var rest := Doubled(text[1..]) + "'";
      assert Doubled(text) + "'" == head + rest;
      AtSplit(s, p, head, rest);
      assert s[p] == s[p..p + |head|][0] && (|head| == 2 ==> s[p + 1] == s[p..p + |head|][1]);
      QuoteOfDoubled(text[1..], s, p + |head|);
      assert text == [text[0]] + text[1..];
    }
  }

  /**
   Literal inverse: in any text, scanning from the opening quote consumes exactly the literal when
   no quote follows it, and undoing the doubling returns the bound bytes.
   */
  lemma LiteralInverse(text: string, s: string, c: nat)
    requires At(s, c, StringLiteral(text))
    requires var q := c + |StringLiteral(text)|; q == |s| || s[q] != '\''
    ensures c < |s| && Scanner.Skip(s, c) == c + |StringLiteral(text)| && QuoteText(s, c + 1) == text
  {
    AtSplit(s, c, "'", Doubled(text) + "'");
    assert s[c] == s[c..c + 1][0];
    QuoteOfDoubled(text, s, c + 1);
  }

  // ---------------------------------------------------------------- bytes

  const HEX_UPPER := "0123456789ABCDEF"

  function HexPair(b: byte): string { [HEX_UPPER[b as int / 16], HEX_UPPER[b as int % 16]] }

  function HexPairs(bytes: seq<byte>): string {
    if bytes == [] then [] else HexPair(bytes[0]) + HexPairs(bytes[1..])
  }

  /** Bound bytes as a SQL literal. */
  function BinaryLiteral(bytes: seq<byte>): string { "X'" + (HexPairs(bytes) + "'") }

  /** The bytes a run of hex pairs stands for. */
  function Unhex(s: string): seq<byte> {
    if |s| < 2 || HexDigit(s[0]) == 16 || HexDigit(s[1]) == 16 then []
    else [(HexDigit(s[0]) * 16 + HexDigit(s[1])) as char] + Unhex(s[2..])
  }

  lemma HexPairValue(b: byte)
    ensures HexDigit(HexPair(b)[0]) * 16 + HexDigit(HexPair(b)[1]) == b as int
    ensures HexDigit(HexPair(b)[0]) < 16 && HexDigit(HexPair(b)[1]) < 16
  {
    UpperHexValue(b as int / 16);
    UpperHexValue(b as int % 16);
  }

  lemma UpperHexValue(k: nat)
    requires k < 16
    ensures HexDigit(HEX_UPPER[k]) == k
  {
    assert HEX_UPPER[k] == "0123456789ABCDEF"[k];
  }

  /** The hex digits name exactly the bound bytes, and none of them is a quote. */
  lemma {:induction false} UnhexOfHexPairs(bytes: seq<byte>)
    ensures Unhex(HexPairs(bytes)) == bytes
    ensures forall i :: 0 <= i < |HexPairs(bytes)| ==> HexDigit(HexPairs(bytes)[i]) < 16
    decreases |bytes|
  {
    if bytes != [] {
      HexPairValue(bytes[0]);
      UnhexOfHexPairs(bytes[1..]);
      assert HexPairs(bytes)[2..] == HexPairs(bytes[1..]);
    }
  }

  /** append_binary_literal. */
  method AppendBinaryLiteral(buf: StrBuf, bytes: seq<byte>)
    requires buf.Valid()
    modifies buf.Repr()
    ensures buf.Valid() && fresh(buf.Repr() - old(buf.Repr()))
    ensures buf.Contents() == old(buf.Contents()) + BinaryLiteral(bytes)
  {
    hide StrBuf.Valid, StrBuf.Contents, StrBuf.Size, AfterAppend, HexPairs, HexPair;
    ghost var before := buf.Contents();
    buf.Append("X'");
    ghost var open := buf.Contents();
    NoPairs(open, bytes);
    for i := 0 to |bytes|
      invariant buf.Valid() && fresh(buf.Repr() - old(buf.Repr()))
      invariant buf.Contents() == open + HexPairs(bytes[..i])
    {
      PairsStep(bytes, i);
      buf.Append(HexPair(bytes[i]));
    }
    assert bytes[..|bytes|] == bytes;
    buf.Append("'");
    assert buf.Contents() == before + BinaryLiteral(bytes);
  }

  lemma NoPairs(open: string, bytes: seq<byte>)
    ensures open == open + HexPairs(bytes[..0])
  {}

  lemma {:induction false} PairsConcat(a: seq<byte>, b: seq<byte>)
    ensures HexPairs(a + b) == HexPairs(a) + HexPairs(b)
    decreases |a|
  {
    hide HexPair;
    if a == [] {
      assert a + b == b;
    } else {
      assert (a + b)[1..] == a[1..] + b;
      PairsConcat(a[1..], b);
    }
  }

  lemma PairsStep(bytes: seq<byte>, i: nat)
    requires i < |bytes|
    ensures HexPairs(bytes[..i + 1]) == HexPairs(bytes[..i]) + HexPair(bytes[i])
  {
    hide HexPair;
    assert bytes[..i + 1] == bytes[..i] + [bytes[i]];
    PairsConcat(bytes[..i], [bytes[i]]);
    assert [bytes[i]][1..] == [];
  }
}
