/**
 Lexing as a local matter: a sequence of tokens is what the walk finds in its own text exactly when
 each token is found between the one character before it and the one after it.
 */
module Lexing {
  import opened CText
  import Scanner
  import opened ScannerProofs
  import opened Render

  function TokenText(t: Token): string {
    match t
    case Stretch(text) => text
    case Mark => "?"
    case Name(name) => name
    case Plain(c) => [c]
  }

  function Flat(tokens: seq<Token>): string
    decreases |tokens|
  {
    if tokens == [] then "" else TokenText(tokens[0]) + Flat(tokens[1..])
  }

  predicate Solid(tokens: seq<Token>) { forall t :: t in tokens ==> TokenText(t) != "" }

  function Chars(c: Option<char>): string { if c.Some? then [c.value] else [] }

  function LastChar(s: string): Option<char> { if s == "" then None else Some(s[|s| - 1]) }

  function FirstChar(s: string): Option<char> { if s == "" then None else Some(s[0]) }

  function First(tokens: seq<Token>): Option<char> {
    if tokens == [] then None else FirstChar(TokenText(tokens[0]))
  }

  /** Between these two characters, the token's text is that token. */
  predicate Fits(prev: Option<char>, t: Token, next: Option<char>) {
    var text := TokenText(t);
    var k := |Chars(prev)|;
    text != "" && TokenAt(Chars(prev) + (text + Chars(next)), k) == (t, k + |text|)
  }

  predicate AllFit(prev: Option<char>, tokens: seq<Token>)
    decreases |tokens|
  {
    tokens == [] ||
    (Fits(prev, tokens[0], First(tokens[1..])) && AllFit(LastChar(TokenText(tokens[0])), tokens[1..]))
  }

  // ---------------------------------------------------------------- moving a token

  predicate SamePrev(s: string, c: nat, t: string, d: nat)
    requires c <= |s| && d <= |t|
  {
    LastChar(s[..c]) == LastChar(t[..d])
  }

  lemma SamePrevMeans(s: string, c: nat, t: string, d: nat)
    requires c <= |s| && d <= |t| && SamePrev(s, c, t, d)
    ensures (c == 0 <==> d == 0) && (c > 0 ==> s[c - 1] == t[d - 1])
    ensures FreeBefore(s, c) == FreeBefore(t, d)
  {
    if c > 0 {
      assert s[..c][|s[..c]| - 1] == s[c - 1];
    }
    if d > 0 {
      assert t[..d][|t[..d]| - 1] == t[d - 1];
    }
  }

  lemma {:induction false} NameEndMoves(s: string, p: nat, t: string, q: nat, m: nat)
    requires Same(s, p, t, q, m) && Decided(NameEnd(s, p), p, t, q, m)
    ensures NameEnd(t, q) == NameEnd(s, p) - p + q
    decreases m
  {
    if m > 0 && InName(s[p]) {
      NameEndMoves(s, p + 1, t, q + 1, m - 1);
    }
  }

  /** A token decided inside a window is the same token wherever the window stands. */
  lemma TokenMoves(s: string, c: nat, t: string, d: nat, m: nat)
    requires m > 0 && c + m <= |s| && d + m <= |t| && Same(s, c, t, d, m) && SamePrev(s, c, t, d)
    requires Decided(TokenAt(s, c).1, c, t, d, m)
    ensures TokenAt(t, d) == (TokenAt(s, c).0, TokenAt(s, c).1 - c + d)
  {
    hide Same, FreeBefore, Scanner.Skip, SamePrev;
    SamePrevMeans(s, c, t, d);
    SkipMoves(s, c, t, d, m);
    SameSlice(s, c, t, d, m, TokenAt(s, c).1 - c);
    SameHere(s, c, t, d, m);
    if Scanner.Skip(s, c) == c && s[c] == ':' && OpensName(s, c) {
      NameEndMoves(s, c + 1, t, d + 1, m - 1);
    }
  }

  lemma SameHere(s: string, c: nat, t: string, d: nat, m: nat)
    requires m > 0 && Same(s, c, t, d, m)
    ensures s[c] == t[d] && Same(s, c + 1, t, d + 1, m - 1) && (m > 1 ==> s[c + 1] == t[d + 1])
  {}

  lemma TokenLength(s: string, c: nat)
    requires c < |s|
    ensures var (t, e) := TokenAt(s, c); e == c + |TokenText(t)| && s[c..e] == TokenText(t)
  {
    hide Scanner.Skip;
  }

  /** A token of a text is decided by the window of one character before and one after it. */
  lemma WindowDecides(s: string, c: nat, t: Token)
    requires c < |s| && TokenText(t) != "" && TokenText(t) <= s[c..]
    ensures var e := c + |TokenText(t)|;
            Fits(LastChar(s[..c]), t, FirstChar(s[e..])) <==> TokenAt(s, c) == (t, e)
  {
    hide TokenAt, Same;
    var text := TokenText(t);
    var e := c + |text|;
    var prev, next := LastChar(s[..c]), FirstChar(s[e..]);
    var w := Chars(prev) + (text + Chars(next));
    var k := |Chars(prev)|;
    var m := |text| + |Chars(next)|;
    WindowText(s, c, text);
    assert SamePrev(s, c, w, k) && SamePrev(w, k, s, c) by {
      assert w[..k] == Chars(prev);
    }
    SameIfEqual(s, c, w, k, m);
    SameIfEqual(w, k, s, c, m);
    if TokenAt(s, c) == (t, e) {
      TokenMoves(s, c, w, k, m);
    }
    if TokenAt(w, k) == (t, k + |text|) {
      TokenMoves(w, k, s, c, m);
    }
  }

  lemma WindowText(s: string, c: nat, text: string)
    requires c < |s| && text != "" && text <= s[c..]
    ensures var e := c + |text|;
            var prev, next := LastChar(s[..c]), FirstChar(s[e..]);
            var w := Chars(prev) + (text + Chars(next));
            var m := |text| + |Chars(next)|;
            && c + m <= |s| && |w| == |Chars(prev)| + m && s[c..c + m] == w[|Chars(prev)|..|Chars(prev)| + m]
            && (next.None? ==> c + m == |s|)
  {
    var e := c + |text|;
    assert s[c..][..|text|] == text;
    var next := FirstChar(s[e..]);
    if next.Some? {
      assert s[e..][0] == s[e];
      assert s[c..e + 1] == text + [s[e]];
    } else {
      assert s[c..e] == text;
    }
  }

  // ---------------------------------------------------------------- lexing is local

  lemma {:induction false} LexFits(tokens: seq<Token>, s: string, c: nat)
    requires c <= |s| && s[c..] == Flat(tokens) && Solid(tokens)
    ensures Lex(s, c) == tokens <==> AllFit(LastChar(s[..c]), tokens)
    decreases |tokens|
  {
    hide TokenAt, Fits, TokenText, FirstChar, LastChar;
    if tokens == [] {
      assert |s[c..]| == 0;
    } else {
      var t, rest := tokens[0], tokens[1..];
      assert t in tokens;
      var e := c + |TokenText(t)|;
      TokenInText(s, c, t, rest);
      FirstOfFlat(rest);
      WindowDecides(s, c, t);
      LexHead(s, c, t, rest);
      assert tokens == [t] + rest;
      LexFits(rest, s, e);
    }
  }

  /** A text that starts with a token's. */
  lemma TokenInText(s: string, c: nat, t: Token, rest: seq<Token>)
    requires c <= |s| && TokenText(t) != "" && s[c..] == TokenText(t) + Flat(rest)
    ensures var e := c + |TokenText(t)|;
            && c < e <= |s| && TokenText(t) <= s[c..] && s[e..] == Flat(rest)
            && LastChar(s[..e]) == LastChar(TokenText(t))
  {
    hide TokenText, Flat;
    var text := TokenText(t);
    var e := c + |text|;
    assert s[e..] == s[c..][|text|..];
    assert s[..e] == s[..c] + text;
  }

  /** The walk finds these tokens when it finds the first one and then the others. */
  lemma LexHead(s: string, c: nat, t: Token, rest: seq<Token>)
    requires c < |s| && c + |TokenText(t)| <= |s|
    ensures var e := c + |TokenText(t)|;
            Lex(s, c) == [t] + rest <==> TokenAt(s, c) == (t, e) && Lex(s, e) == rest
  {
    hide TokenAt, TokenText;
    TokenLength(s, c);
    var whole := Lex(s, c);
    assert whole[0] == TokenAt(s, c).0 && whole[1..] == Lex(s, TokenAt(s, c).1);
    assert ([t] + rest)[1..] == rest;
  }

  lemma FirstOfFlat(tokens: seq<Token>)
    requires Solid(tokens)
    ensures FirstChar(Flat(tokens)) == First(tokens)
  {
    if tokens != [] {
      assert tokens[0] in tokens;
    }
  }

  lemma {:induction false} FlatOfLex(s: string, c: nat)
    requires c <= |s|
    ensures Flat(Lex(s, c)) == s[c..] && Solid(Lex(s, c))
    decreases |s| - c
  {
    hide TokenAt;
    if c < |s| {
      var (t, e) := TokenAt(s, c);
      TokenLength(s, c);
      FlatOfLex(s, e);
      assert Lex(s, c)[1..] == Lex(s, e);
      assert s[c..] == s[c..e] + s[e..];
    }
  }

  /** Every text's own tokens fit. */
  lemma LexedFits(s: string)
    ensures AllFit(None, Lex(s, 0))
  {
    FlatOfLex(s, 0);
    LexFits(Lex(s, 0), s, 0);
  }
}
