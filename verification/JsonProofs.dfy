/** The JSON codec agrees with itself: printing and parsing are inverse up to a depth bound. */
module JsonProofs {
  import opened CText
  import opened Json

  // ---------------------------------------------------------------- strings

  lemma HexOfDigit(k: nat)
    requires k < 16
    ensures HexDigit(HEX[k]) == k
  {
    assert HEX[k] == "0123456789abcdef"[k];
  }

  /** `word` at `c`, character by character. */
  lemma AtIndex(s: string, c: nat, word: string, k: nat)
    requires At(s, c, word) && k < |word|
    ensures c + k < |s| && s[c + k] == word[k]
  {
    assert s[c + k] == s[c..c + |word|][k];
  }

  lemma ControlUnit(s: string, p: nat, c: char)
    requires c as int < 0x20 && At(s, p, ControlEscape(c))
    ensures p < |s| && s[p] == '\\' && StringUnit(s, p) == Parsed([c], p + 6)
  {
    var e := ControlEscape(c);
    assert |e| == 6;
    AtIndex(s, p, e, 0);
    AtIndex(s, p, e, 1);
    AtIndex(s, p, e, 2);
    AtIndex(s, p, e, 3);
    AtIndex(s, p, e, 4);
    AtIndex(s, p, e, 5);
    HexOfDigit(c as int / 16);
    HexOfDigit(c as int % 16);
    assert Hex4(s, p + 2) == Parsed(c as int, p + 6);
  }

  lemma CodecUnit(s: string, p: nat, c: char)
    requires At(s, p, CodecEscape(c))
    ensures p < |s| && s[p] != '"' && StringUnit(s, p) == Parsed([c], p + |CodecEscape(c)|)
  {
    var e := CodecEscape(c);
    AtIndex(s, p, e, 0);
    if |e| == 2 {
      AtIndex(s, p, e, 1);
    } else if |e| == 6 {
      ControlUnit(s, p, c);
    }
  }

  lemma WireUnit(s: string, p: nat, c: char)
    requires At(s, p, WireEscape(c))
    ensures p < |s| && s[p] != '"' && StringUnit(s, p) == Parsed([c], p + |WireEscape(c)|)
  {
    var e := WireEscape(c);
    AtIndex(s, p, e, 0);
    if |e| == 2 {
      AtIndex(s, p, e, 1);
    } else if |e| == 6 {
      ControlUnit(s, p, c);
    }
  }

  lemma {:induction false} CodecBody(s: string, p: nat, text: string)
    requires p <= |s| && At(s, p, CodecEscapes(text) + "\"")
    ensures StringBody(s, p) == Parsed(text, p + |CodecEscapes(text)| + 1)
    decreases |text|
  {
    hide At, StringUnit, CodecEscape;
    if text == [] {
      assert CodecEscapes(text) + "\"" == "\"";
      AtIndex(s, p, "\"", 0);
    } else {
      var e, rest := CodecEscape(text[0]), CodecEscapes(text[1..]) + "\"";
      assert CodecEscapes(text) + "\"" == e + rest;
      AtSplit(s, p, e, rest);
      CodecUnit(s, p, text[0]);
      CodecBody(s, p + |e|, text[1..]);
      assert [text[0]] + text[1..] == text;
    }
  }

  lemma {:induction false} WireBody(s: string, p: nat, text: string)
    requires p <= |s| && At(s, p, WireEscapes(text) + "\"")
    ensures StringBody(s, p) == Parsed(text, p + |WireEscapes(text)| + 1)
    decreases |text|
  {
    hide At, StringUnit, WireEscape;
    if text == [] {
      assert WireEscapes(text) + "\"" == "\"";
      AtIndex(s, p, "\"", 0);
    } else {
      var e, rest := WireEscape(text[0]), WireEscapes(text[1..]) + "\"";
      assert WireEscapes(text) + "\"" == e + rest;
      AtSplit(s, p, e, rest);
      WireUnit(s, p, text[0]);
      WireBody(s, p + |e|, text[1..]);
      assert [text[0]] + text[1..] == text;
    }
  }

  // ---------------------------------------------------------------- trees

  /** Container nesting: 0 for a scalar. */
  function Depth(node: Json): nat
    decreases node, 1
  {
    match node
    case Array(children) => 1 + DepthOf(children)
    case Object(members) => 1 + DepthOfMembers(members)
    case _ => 0
  }

  function Max(a: nat, b: nat): nat { if a < b then b else a }

  function DepthOf(children: seq<Json>): nat
    decreases children, 0
  {
    if children == [] then 0 else Max(Depth(children[0]), DepthOf(children[1..]))
  }

  function DepthOfMembers(members: seq<Member>): nat
    decreases members, 0
  {
    if members == [] then 0 else Max(Depth(members[0].value), DepthOfMembers(members[1..]))
  }

  /** A non-empty lexeme over the parser's number alphabet. */
  predicate IsLexeme(s: string) { s != [] && forall i :: 0 <= i < |s| ==> IsNumberChar(s[i]) }

  /** NUL-free strings and keys, and lexemes for numbers. */
  predicate Printable(node: Json)
    decreases node, 1
  {
    match node
    case Number(lexeme) => IsLexeme(lexeme)
    case String(text) => NulFree(text)
    case Array(children) => AllPrintable(children)
    case Object(members) => MembersPrintable(members)
    case _ => true
  }

  predicate AllPrintable(children: seq<Json>)
    decreases children, 0
  {
    children == [] || (Printable(children[0]) && AllPrintable(children[1..]))
  }

  predicate MembersPrintable(members: seq<Member>)
    decreases members, 0
  {
    members == [] ||
    (NulFree(members[0].key) && Printable(members[0].value) && MembersPrintable(members[1..]))
  }

  /** No number runs on past `q`. */
  predicate Stops(s: string, q: nat) { q >= |s| || !IsNumberChar(s[q]) }

  lemma {:induction false} NumberEndOfLexeme(s: string, c: nat, lexeme: string)
    requires At(s, c, lexeme) && Stops(s, c + |lexeme|)
    requires forall i :: 0 <= i < |lexeme| ==> IsNumberChar(lexeme[i])
    ensures NumberEnd(s, c) == c + |lexeme|
    decreases |lexeme|
  {
    if lexeme != [] {
      AtIndex(s, c, lexeme, 0);
      assert lexeme == [lexeme[0]] + lexeme[1..];
      AtSplit(s, c, [lexeme[0]], lexeme[1..]);
      NumberEndOfLexeme(s, c + 1, lexeme[1..]);
    }
  }

  /** What a printed value starts with. */
  lemma PrintStarts(node: Json, s: string, c: nat)
    requires Printable(node) && At(s, c, Print(node))
    ensures c < |s| && SkipWs(s, c) == c && s[c] != ']' && s[c] != '}'
    ensures match node
            case Null => s[c] == 'n'
            case Bool(b) => s[c] == if b then 't' else 'f'
            case Number(_) => IsNumberChar(s[c])
            case String(_) => s[c] == '"'
            case Array(_) => s[c] == '['
            case Object(_) => s[c] == '{'
  {
    if node.Number? {
      CStrOfNulFree(node.lexeme);
    }
    AtIndex(s, c, Print(node), 0);
  }

  /** A printed value parses back to itself exactly when it nests no deeper than is left. */
  lemma {:induction false} ValueOfPrinted(node: Json, s: string, c: nat, d: nat)
    requires Printable(node) && At(s, c, Print(node)) && Stops(s, c + |Print(node)|) && d <= MAX_DEPTH
    ensures c <= |s|
    ensures Value(s, c, d) == if d + Depth(node) <= MAX_DEPTH then Parsed(node, c + |Print(node)|) else Fail
    decreases node, 1
  {
    match node {
      case Array(children) => ArrayOfPrinted(children, s, c, d);
      case Object(members) => ObjectOfPrinted(members, s, c, d);
      case _ => ScalarOfPrinted(node, s, c, d);
    }
  }

  lemma ScalarOfPrinted(node: Json, s: string, c: nat, d: nat)
    requires !node.Array? && !node.Object?
    requires Printable(node) && At(s, c, Print(node)) && Stops(s, c + |Print(node)|)
    ensures c <= |s| && Value(s, c, d) == Parsed(node, c + |Print(node)|)
  {
    match node {
      case Number(_) => NumberOfPrinted(node, s, c, d);
      case String(_) => StringOfPrinted(node, s, c, d);
      case _ => WordOfPrinted(node, s, c, d);
    }
  }

  lemma NumberOfPrinted(node: Json, s: string, c: nat, d: nat)
    requires node.Number? && Printable(node) && At(s, c, Print(node)) && Stops(s, c + |Print(node)|)
    ensures c <= |s| && Value(s, c, d) == Parsed(node, c + |Print(node)|)
  {
    hide At, StringBody, Elements, Members, SkipWs, NumberEnd, Word;
    PrintStarts(node, s, c);
    AtMeans(s, c, Print(node));
    CStrOfNulFree(node.lexeme);
    NumberEndOfLexeme(s, c, node.lexeme);
  }

  lemma StringOfPrinted(node: Json, s: string, c: nat, d: nat)
    requires node.String? && Printable(node) && At(s, c, Print(node))
    ensures c <= |s| && Value(s, c, d) == Parsed(node, c + |Print(node)|)
  {
    hide At, StringBody, Elements, Members, SkipWs, NumberEnd, Word, CodecEscapes;
    PrintStarts(node, s, c);
    AtMeans(s, c, Print(node));
    CStrOfNulFree(node.text);
    AtSplit(s, c, "\"", CodecEscapes(node.text) + "\"");
    CodecBody(s, c + 1, node.text);
  }

  lemma WordOfPrinted(node: Json, s: string, c: nat, d: nat)
    requires (node.Null? || node.Bool?) && At(s, c, Print(node))
    ensures c <= |s| && Value(s, c, d) == Parsed(node, c + |Print(node)|)
  {
    hide At, StringBody, Elements, Members, SkipWs, NumberEnd;
    PrintStarts(node, s, c);
    AtMeans(s, c, Print(node));
  }

  lemma {:induction false} ArrayOfPrinted(children: seq<Json>, s: string, c: nat, d: nat)
    requires AllPrintable(children) && At(s, c, "[" + PrintElements(children)) && d <= MAX_DEPTH
    ensures c <= |s|
    ensures Value(s, c, d)
         == if d + 1 + DepthOf(children) <= MAX_DEPTH then Parsed(Array(children), c + 1 + |PrintElements(children)|)
            else Fail
    decreases children, 1
  {
    hide At, StringBody, Elements, Members, SkipWs, NumberEnd;
    AtSplit(s, c, "[", PrintElements(children));
    Bracket(s, c, "[");
    if d < MAX_DEPTH {
      if children == [] {
        Bracket(s, c + 1, "]");
      } else {
        ElementsOfPrinted(children, s, c + 1, d + 1);
      }
    }
  }

  lemma {:induction false} ObjectOfPrinted(members: seq<Member>, s: string, c: nat, d: nat)
    requires MembersPrintable(members) && At(s, c, "{" + PrintMembers(members)) && d <= MAX_DEPTH
    ensures c <= |s|
    ensures Value(s, c, d)
         == if d + 1 + DepthOfMembers(members) <= MAX_DEPTH
            then Parsed(Object(members), c + 1 + |PrintMembers(members)|)
            else Fail
    decreases members, 1
  {
    hide At, StringBody, Elements, Members, SkipWs, NumberEnd;
    AtSplit(s, c, "{", PrintMembers(members));
    Bracket(s, c, "{");
    if d < MAX_DEPTH {
      if members == [] {
        Bracket(s, c + 1, "}");
      } else {
        MembersOfPrinted(members, s, c + 1, d + 1);
      }
    }
  }

  lemma AtMeans(s: string, c: nat, text: string)
    requires At(s, c, text)
    ensures c + |text| <= |s| && s[c..c + |text|] == text
  {}

  lemma Bracket(s: string, c: nat, bracket: string)
    requires At(s, c, bracket) && |bracket| == 1 && bracket[0] in "[]{},"
    ensures c < |s| && s[c] == bracket[0] && SkipWs(s, c) == c && Stops(s, c)
  {
    AtIndex(s, c, bracket, 0);
  }

  lemma {:induction false} ElementsOfPrinted(children: seq<Json>, s: string, c: nat, d: nat)
    requires children != [] && AllPrintable(children) && At(s, c, PrintElements(children)) && d <= MAX_DEPTH
    ensures c < |s| && SkipWs(s, c) == c && s[c] != ']'
    ensures Elements(s, c, d)
         == if d + DepthOf(children) <= MAX_DEPTH then Parsed(children, c + |PrintElements(children)|) else Fail
    decreases children, 0
  {
    hide At, Value, SkipWs, Stops, Print;
    var first := Print(children[0]);
    var n := c + |first|;
    if |children| == 1 {
      AtSplit(s, c, first, "]");
      Bracket(s, n, "]");
      assert children == [children[0]] && children[1..] == [];
    } else {
      AtSplit(s, c, first, "," + PrintElements(children[1..]));
      AtSplit(s, n, ",", PrintElements(children[1..]));
      Bracket(s, n, ",");
      ElementsOfPrinted(children[1..], s, n + 1, d);
      assert children == [children[0]] + children[1..];
    }
    PrintStarts(children[0], s, c);
    ValueOfPrinted(children[0], s, c, d);
  }

  lemma {:induction false} KeyOfPrinted(m: Member, s: string, c: nat)
    requires NulFree(m.key) && At(s, c, PrintMember(m))
    ensures c < |s| && SkipWs(s, c) == c && s[c] == '"'
    ensures var k := c + |CodecString(m.key)| + 1;
            Key(s, c) == Parsed(m.key, k) && At(s, k, Print(m.value)) && k + |Print(m.value)| == c + |PrintMember(m)|
  {
    hide At, StringBody, CodecEscapes, Print;
    var key := CodecString(m.key);
    CStrOfNulFree(m.key);
    AtSplit(s, c, key, ":" + Print(m.value));
    AtSplit(s, c + |key|, ":", Print(m.value));
    AtIndex(s, c + |key|, ":", 0);
    AtSplit(s, c, "\"", CodecEscapes(m.key) + "\"");
    AtIndex(s, c, "\"", 0);
    CodecBody(s, c + 1, m.key);
  }

  lemma {:induction false} MembersOfPrinted(members: seq<Member>, s: string, c: nat, d: nat)
    requires members != [] && MembersPrintable(members) && At(s, c, PrintMembers(members)) && d <= MAX_DEPTH
    ensures c < |s| && SkipWs(s, c) == c && s[c] != '}'
    ensures Members(s, c, d)
         == if d + DepthOfMembers(members) <= MAX_DEPTH then Parsed(members, c + |PrintMembers(members)|) else Fail
    decreases members, 0
  {
    hide At, Value, SkipWs, Stops, Print, PrintMember, Key, CodecString;
    var m := members[0];
    var first := PrintMember(m);
    var n := c + |first|;
    if |members| == 1 {
      AtSplit(s, c, first, "}");
      Bracket(s, n, "}");
      assert members == [m] && members[1..] == [];
    } else {
      AtSplit(s, c, first, "," + PrintMembers(members[1..]));
      AtSplit(s, n, ",", PrintMembers(members[1..]));
      Bracket(s, n, ",");
      MembersOfPrinted(members[1..], s, n + 1, d);
      assert members == [m] + members[1..];
    }
    KeyOfPrinted(m, s, c);
    ValueOfPrinted(m.value, s, c + |CodecString(m.key)| + 1, d);
    assert Member(m.key, m.value) == m;
  }

  /** The round trip, with the exact depth bound. */
  lemma ParseOfPrint(node: Json)
    requires Printable(node)
    ensures Parse(Print(node)) == if Depth(node) <= MAX_DEPTH then Some(node) else None
  {
    var s := Print(node);
    assert s[0..|s|] == s;
    ValueOfPrinted(node, s, 0, 0);
  }
}
