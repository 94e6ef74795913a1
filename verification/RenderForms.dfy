/**
 Which characters of a template are placeholders, and what a rendered literal says, both spelled out
 character by character and independently of the predicates the walk uses.
 */
module RenderForms {
  import opened CText
  import opened Scanner
  import opened Literals
  import opened Render
  import RenderLexing

  // ---------------------------------------------------------------- placeholders

  /** The characters a name is made of. */
  predicate IsNameByte(c: char) { 'a' <= c <= 'z' || 'A' <= c <= 'Z' || '0' <= c <= '9' || c == '_' }

  /** A letter or an underscore. */
  predicate IsNameStart(c: char) { 'a' <= c <= 'z' || 'A' <= c <= 'Z' || c == '_' }

  /** The ends of an operand: a word character, a closing bracket of any kind or a quote, `?` or `:`. */
  predicate ReadsField(c: char) {
    || 'a' <= c <= 'z' || 'A' <= c <= 'Z' || '0' <= c <= '9' || c == '_' || c == '$'
    || c == ')' || c == ']' || c == '}' || c == '\'' || c == '"' || c == '?' || c == ':'
  }

  /** From `c` to `e` runs a name, and it does not run on. */
  predicate NameRun(s: string, c: nat, e: nat) {
    c <= e <= |s| && (forall i :: c <= i < e ==> IsNameByte(s[i])) && (e < |s| ==> !IsNameByte(s[e]))
  }

  lemma {:induction false} LongestName(s: string, c: nat)
    requires c <= |s|
    ensures NameRun(s, c, NameEnd(s, c))
    decreases |s| - c
  {
    if c < |s| && IsNameByte(s[c]) {
      LongestName(s, c + 1);
    }
  }

  lemma OneRun(s: string, c: nat, d: nat, e: nat)
    requires NameRun(s, c, d) && NameRun(s, c, e)
    ensures d == e
  {
    assert d < |s| ==> !IsNameByte(s[d]);
    assert e < |s| ==> !IsNameByte(s[e]);
  }

  /**
   A colon with a letter or an underscore behind it opens a named placeholder, the longest run of
   letters, digits and underscores, unless it stands right behind the end of an operand.
   */
  lemma ColonOpensName(s: string, c: nat, e: nat)
    requires c + 1 < |s| && s[c] == ':' && IsNameStart(s[c + 1]) && NameRun(s, c + 1, e)
    ensures TokenAt(s, c) == if c > 0 && ReadsField(s[c - 1]) then (Plain(':'), c + 1) else (Name(s[c..e]), e)
  {
    LongestName(s, c + 1);
    OneRun(s, c + 1, NameEnd(s, c + 1), e);
  }

  /** Any other colon is only a colon. */
  lemma ColonAlone(s: string, c: nat)
    requires c < |s| && s[c] == ':' && (c + 1 < |s| ==> !IsNameStart(s[c + 1]))
    ensures TokenAt(s, c) == (Plain(':'), c + 1)
  {}

  /** A question mark is a placeholder, and what is no stretch, colon or question mark is copied. */
  lemma OtherCharacters(s: string, c: nat)
    requires c < |s| && Skip(s, c) == c && s[c] != ':'
    ensures TokenAt(s, c) == (if s[c] == '?' then Mark else Plain(s[c]), c + 1)
  {}

  /** With nothing bound every marker is the engine's: the text goes through as it is. */
  lemma UnboundTextIsKept(s: string)
    ensures RenderStatement(s, map[]) == Rendered(s)
  {}

  // ---------------------------------------------------------------- literals

  predicate IsBlankByte(c: char) { c == ' ' || c == '\t' }

  function TrimLeft(s: string): string {
    if s != "" && IsBlankByte(s[0]) then TrimLeft(s[1..]) else s
  }

  /** What a literal says to its reader. */
  datatype Meaning = IsNull | IsTrue | IsFalse | IsNumber(text: string) | IsString(text: string)
    | IsBinary(bytes: seq<byte>) | IsFloat(name: string)

  /** Read by the literal's own first and last characters. */
  function Read(s: string): Meaning {
    if s == "NULL" then IsNull
    else if s == "TRUE" then IsTrue
    else if s == "FALSE" then IsFalse
    else if s != "" && s[0] == '\'' then
      if s[|s| - 1] == 'T' then IsFloat(QuoteText(s, 1)) else IsString(QuoteText(s, 1))
    else if |s| > 1 && s[0] == 'X' then IsBinary(Unhex(s[2..]))
    else IsNumber(TrimLeft(s))
  }

  /** What was bound. A number keeps its text but for blanks in front of it. */
  function Meant(v: Value): Meaning
    requires !v.Unreadable?
  {
    match v
    case Null => IsNull
    case Bool(b) => if b then IsTrue else IsFalse
    case Number(text) => IsNumber(TrimLeft(text))
    case NotANumber => IsFloat("NaN")
    case Infinite(positive) => IsFloat(if positive then "inf" else "-inf")
    case IntString(text) => if IsNumeric(text) then IsNumber(TrimLeft(text)) else IsString(text)
    case Text(text) => IsString(text)
    case Binary(bytes) => IsBinary(bytes)
  }

  lemma StringReads(text: string)
    ensures Read(StringLiteral(text)) == IsString(text)
  {
    hide Doubled, QuoteText;
    var s := StringLiteral(text);
    assert s[0..|s|] == s;
    LiteralInverse(text, s, 0);
  }

  lemma BinaryReads(bytes: seq<byte>)
    ensures Read(BinaryLiteral(bytes)) == IsBinary(bytes)
  {
    hide HexPairs, Unhex, QuoteText;
    var s := BinaryLiteral(bytes);
    var hex := HexPairs(bytes) + "'";
    assert s == "X'" + hex;
    assert s[0] == 'X' && |s| > 1 && s[2..] == hex;
    assert s != "NULL" && s != "TRUE" && s != "FALSE";
    UnhexStops(bytes);
  }

  lemma {:induction false} UnhexStops(bytes: seq<byte>)
    ensures Unhex(HexPairs(bytes) + "'") == bytes
    decreases |bytes|
  {
    if bytes == [] {
      assert HexPairs(bytes) + "'" == "'";
    } else {
      var rest := HexPairs(bytes[1..]) + "'";
      assert HexPairs(bytes) + "'" == HexPair(bytes[0]) + rest;
      assert (HexPair(bytes[0]) + rest)[2..] == rest;
      HexPairValue(bytes[0]);
      UnhexStops(bytes[1..]);
    }
  }

  lemma NumberReads(text: string, afterMinus: bool)
    requires IsNumeric(text)
    ensures Read(NumberText(text, afterMinus)) == IsNumber(TrimLeft(text))
  {
    hide QuoteText, Unhex;
    RenderLexing.NumericShape(Start, text, 0);
    assert text != "";
    assert RenderLexing.NumberChar(text[0]);
    var s := NumberText(text, afterMinus);
    if s != text {
      assert s[1..] == text;
    }
  }

  /** `'NaN'::FLOAT` and the like. */
  lemma FloatReads(name: string)
    requires name == "NaN" || name == "inf" || name == "-inf"
    ensures Read("'" + name + "'::FLOAT") == IsFloat(name)
  {
    var s := "'" + name + "'::FLOAT";
    var literal := StringLiteral(name);
    RenderLexing.HexIsPlain(name);
    assert literal == "'" + (name + "'");
    assert s[..|literal|] == literal && At(s, 0, literal);
    assert s[|literal|] == ':' && s[|s| - 1] == 'T';
    LiteralInverse(name, s, 0);
  }

  /** Every rendered literal reads back as the value that was bound. */
  lemma ValueReadsBack(v: Value, afterMinus: bool)
    requires RenderLexing.Formatted(v)
    ensures Read(ValueText(v, afterMinus)) == Meant(v)
  {
    hide Read, IsNumeric, StringLiteral, BinaryLiteral, NumberText, TrimLeft;
    match v {
      case Null => WordsRead();
      case Bool(_) => WordsRead();
      case Number(text) => NumberReads(text, afterMinus);
      case NotANumber =>
        FloatReads("NaN");
        assert "'" + "NaN" + "'::FLOAT" == "'NaN'::FLOAT";
      case Infinite(positive) =>
        FloatReads(if positive then "inf" else "-inf");
        assert "'" + "inf" + "'::FLOAT" == "'inf'::FLOAT" && "'" + "-inf" + "'::FLOAT" == "'-inf'::FLOAT";
      case IntString(text) =>
        if IsNumeric(text) {
          NumberReads(text, afterMinus);
        } else {
          StringReads(text);
        }
      case Text(text) => StringReads(text);
      case Binary(bytes) => BinaryReads(bytes);
    }
  }

  lemma WordsRead()
    ensures Read("NULL") == IsNull && Read("TRUE") == IsTrue && Read("FALSE") == IsFalse
  {}
}
