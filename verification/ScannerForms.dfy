/**
 What the scanner takes for a string, a quoted identifier, a comment or a `$$` body, said by the
 shape of the text: which characters open it, what it may hold, and where it ends.
 */
module ScannerForms {
  import opened CText
  import opened Scanner

  // ---------------------------------------------------------------- strings

  /** A piece of a string: a plain character, a backslash with any character, or two quotes. */
  datatype StringPiece = Plain(c: char) | Escaped(c: char) | TwoQuotes

  predicate IsPiece(p: StringPiece) { p.Plain? ==> p.c != '\'' && p.c != '\\' }

  function PieceText(p: StringPiece): string {
    match p
    case Plain(c) => [c]
    case Escaped(c) => ['\\', c]
    case TwoQuotes => "''"
  }

  function StringText(pieces: seq<StringPiece>): string {
    if pieces == [] then "" else PieceText(pieces[0]) + StringText(pieces[1..])
  }

  lemma PieceAt(p: StringPiece, rest: string, s: string, c: nat)
    requires At(s, c, PieceText(p) + rest)
    ensures c < |s| && At(s, c + |PieceText(p)|, rest)
    ensures match p
            case Plain(x) => s[c] == x
            case Escaped(x) => c + 1 < |s| && s[c] == '\\' && s[c + 1] == x
            case TwoQuotes => c + 1 < |s| && s[c] == '\'' == s[c + 1]
  {
    var text := PieceText(p);
    AtSplit(s, c, text, rest);
    assert s[c] == s[c..c + |text|][0] && (|text| == 2 ==> s[c + 1] == s[c..c + 2][1]);
  }

  /** The scanner passes over whole pieces. */
  lemma {:induction false} PiecesPassed(pieces: seq<StringPiece>, rest: string, s: string, c: nat)
    requires (forall p :: p in pieces ==> IsPiece(p)) && At(s, c, StringText(pieces) + rest)
    ensures c + |StringText(pieces)| <= |s| && At(s, c + |StringText(pieces)|, rest)
    ensures QuoteEnd(s, c) == QuoteEnd(s, c + |StringText(pieces)|)
    decreases |pieces|
  {
    hide At, PieceText;
    if pieces == [] {
      assert StringText(pieces) + rest == rest;
      AtEnd(s, c, rest);
    } else {
      var p, more := pieces[0], pieces[1..];
      assert p in pieces;
      assert StringText(pieces) + rest == PieceText(p) + (StringText(more) + rest);
      PieceAt(p, StringText(more) + rest, s, c);
      PieceLength(p);
      PiecesPassed(more, rest, s, c + |PieceText(p)|);
    }
  }

  lemma PieceLength(p: StringPiece)
    ensures |PieceText(p)| == if p.Plain? then 1 else 2
  {}

  lemma AtEnd(s: string, c: nat, text: string)
    requires At(s, c, text)
    ensures c + |text| <= |s|
  {}

  /** A string is its pieces between quotes, wherever it stands, when no third quote follows. */
  lemma {:induction false} StringIsSkipped(pieces: seq<StringPiece>, s: string, c: nat)
    requires (forall p :: p in pieces ==> IsPiece(p)) && At(s, c, "'" + (StringText(pieces) + "'"))
    requires var q := c + |StringText(pieces)| + 2; q == |s| || s[q] != '\''
    ensures c < |s| && Skip(s, c) == c + |StringText(pieces)| + 2
  {
    hide StringText;
    AtSplit(s, c, "'", StringText(pieces) + "'");
    assert s[c] == s[c..c + 1][0];
    PiecesPassed(pieces, "'", s, c + 1);
    var q := c + 1 + |StringText(pieces)|;
    assert s[q] == s[q..q + 1][0];
  }

  /** A string that is never closed runs to the end, whether or not a lone backslash is its last character. */
  lemma {:induction false} OpenStringRunsOn(pieces: seq<StringPiece>, last: string, s: string, c: nat)
    requires (forall p :: p in pieces ==> IsPiece(p)) && (last == "" || last == "\\")
    requires At(s, c, "'" + (StringText(pieces) + last)) && c + 1 + |StringText(pieces)| + |last| == |s|
    ensures c < |s| && Skip(s, c) == |s|
  {
    hide StringText;
    AtSplit(s, c, "'", StringText(pieces) + last);
    assert s[c] == s[c..c + 1][0];
    PiecesPassed(pieces, last, s, c + 1);
    var q := c + 1 + |StringText(pieces)|;
    if last != "" {
      assert s[q] == s[q..q + 1][0];
    }
  }

  // ---------------------------------------------------------------- quoted identifiers

  /** A piece of a quoted identifier: a character that is no double quote, or two of them. */
  datatype NamePiece = Letter(c: char) | TwoDoubleQuotes

  predicate IsNamePiece(p: NamePiece) { p.Letter? ==> p.c != '"' }

  function NamePieceText(p: NamePiece): string {
    match p
    case Letter(c) => [c]
    case TwoDoubleQuotes => "\"\""
  }

  function NameText(pieces: seq<NamePiece>): string {
    if pieces == [] then "" else NamePieceText(pieces[0]) + NameText(pieces[1..])
  }

  lemma NamePieceAt(p: NamePiece, rest: string, s: string, c: nat)
    requires At(s, c, NamePieceText(p) + rest)
    ensures c < |s| && At(s, c + |NamePieceText(p)|, rest)
    ensures match p
            case Letter(x) => |NamePieceText(p)| == 1 && s[c] == x
            case TwoDoubleQuotes => |NamePieceText(p)| == 2 && c + 1 < |s| && s[c] == '"' == s[c + 1]
  {
    var text := NamePieceText(p);
    AtSplit(s, c, text, rest);
    assert s[c] == s[c..c + |text|][0] && (|text| == 2 ==> s[c + 1] == s[c..c + 2][1]);
  }

  lemma {:induction false} NamePiecesPassed(pieces: seq<NamePiece>, rest: string, s: string, c: nat)
    requires (forall p :: p in pieces ==> IsNamePiece(p)) && At(s, c, NameText(pieces) + rest)
    ensures c + |NameText(pieces)| <= |s| && At(s, c + |NameText(pieces)|, rest)
    ensures IdentEnd(s, c) == IdentEnd(s, c + |NameText(pieces)|)
    decreases |pieces|
  {
    hide At, NamePieceText;
    if pieces == [] {
      assert NameText(pieces) + rest == rest;
      AtEnd(s, c, rest);
    } else {
      var p, more := pieces[0], pieces[1..];
      assert p in pieces;
      assert NameText(pieces) + rest == NamePieceText(p) + (NameText(more) + rest);
      NamePieceAt(p, NameText(more) + rest, s, c);
      NamePiecesPassed(more, rest, s, c + |NamePieceText(p)|);
    }
  }

  /** A quoted identifier: closed when no third double quote follows, else it runs to the end. */
  lemma {:induction false} NameIsSkipped(pieces: seq<NamePiece>, closed: bool, s: string, c: nat)
    requires forall p :: p in pieces ==> IsNamePiece(p)
    requires At(s, c, "\"" + (NameText(pieces) + (if closed then "\"" else "")))
    requires var q := c + |NameText(pieces)| + 1;
             if closed then q + 1 == |s| || (q + 1 < |s| && s[q + 1] != '"') else q == |s|
    ensures c < |s| && Skip(s, c) == c + |NameText(pieces)| + 1 + (if closed then 1 else 0)
  {
    hide NameText;
    var close := if closed then "\"" else "";
    AtSplit(s, c, "\"", NameText(pieces) + close);
    assert s[c] == s[c..c + 1][0];
    NamePiecesPassed(pieces, close, s, c + 1);
    var q := c + 1 + |NameText(pieces)|;
    if closed {
      assert s[q] == s[q..q + 1][0];
    }
  }

  // ---------------------------------------------------------------- comments and bodies

  lemma {:induction false} LinePassed(body: string, rest: string, s: string, c: nat)
    requires (forall i :: 0 <= i < |body| ==> body[i] != '\n') && At(s, c, body + rest)
    ensures c + |body| <= |s| && LineEnd(s, c) == LineEnd(s, c + |body|)
    decreases |body|
  {
    if body != "" {
      assert body + rest == [body[0]] + (body[1..] + rest);
      AtSplit(s, c, [body[0]], body[1..] + rest);
      assert s[c] == s[c..c + 1][0];
      LinePassed(body[1..], rest, s, c + 1);
    }
  }

  /** A comment from `--` or `//` to its newline, or to the end of the text. */
  lemma {:induction false} LineIsSkipped(opener: string, body: string, closed: bool, s: string, c: nat)
    requires opener == "--" || opener == "//"
    requires forall i :: 0 <= i < |body| ==> body[i] != '\n'
    requires At(s, c, opener + (body + (if closed then "\n" else ""))) && (closed || c + 2 + |body| == |s|)
    ensures c < |s| && Skip(s, c) == c + 2 + |body| + (if closed then 1 else 0)
  {
    var close := if closed then "\n" else "";
    AtSplit(s, c, opener, body + close);
    AtSplit(s, c + 2, body, close);
    assert s[c] == s[c..c + 2][0] && s[c + 1] == s[c..c + 2][1];
    LinePassed(body, close, s, c + 2);
    var q := c + 2 + |body|;
    if closed {
      assert s[q] == s[q..q + 1][0];
    }
  }

  /** The pair `ab` starts nowhere in `body` when the closing pair, or nothing, follows it. */
  predicate HoldsNo(body: string, close: string, a: char, b: char) {
    var text := body + close;
    forall i :: 0 <= i < |body| && i + 1 < |text| ==> !(text[i] == a && text[i + 1] == b)
  }

  lemma {:induction false} PairPassed(body: string, close: string, s: string, c: nat, a: char, b: char)
    requires HoldsNo(body, close, a, b) && At(s, c, body + close)
    requires close == [a, b] || (close == "" && c + |body| == |s|)
    ensures PairEnd(s, c, a, b) == c + |body + close|
    decreases |body|
  {
    var text := body + close;
    assert forall i :: 0 <= i < |text| ==> s[c + i] == s[c..c + |text|][i] == text[i];
    if body != "" {
      assert text == [body[0]] + (body[1..] + close);
      AtSplit(s, c, [body[0]], body[1..] + close);
      assert text[1..] == body[1..] + close;
      PairPassed(body[1..], close, s, c + 1, a, b);
    }
  }

  /** A comment from slash-star to the first star-slash, or to the end of the text. */
  lemma {:induction false} BlockIsSkipped(body: string, closed: bool, s: string, c: nat)
    requires HoldsNo(body, if closed then "*/" else "", '*', '/')
    requires At(s, c, "/*" + (body + (if closed then "*/" else ""))) && (closed || c + 2 + |body| == |s|)
    ensures c < |s| && Skip(s, c) == c + 2 + |body| + (if closed then 2 else 0)
  {
    hide HoldsNo;
    var close := if closed then "*/" else "";
    AtSplit(s, c, "/*", body + close);
    assert s[c] == s[c..c + 2][0] && s[c + 1] == s[c..c + 2][1];
    PairPassed(body, close, s, c + 2, '*', '/');
  }

  /** A character an identifier may end in, so that `$$` behind it belongs to the identifier. */
  predicate EndsIdentifier(c: char) {
    'a' <= c <= 'z' || 'A' <= c <= 'Z' || '0' <= c <= '9' || c == '_' || c == '$'
  }

  /** A `$$` body to the next `$$`, or to the end of the text; behind an identifier `$$` opens nothing. */
  lemma {:induction false} BodyIsSkipped(body: string, closed: bool, s: string, c: nat)
    requires HoldsNo(body, if closed then "$$" else "", '$', '$')
    requires At(s, c, "$$" + (body + (if closed then "$$" else ""))) && (closed || c + 2 + |body| == |s|)
    ensures c < |s|
    ensures Skip(s, c) == if c > 0 && EndsIdentifier(s[c - 1]) then c
                          else c + 2 + |body| + (if closed then 2 else 0)
  {
    hide HoldsNo;
    var close := if closed then "$$" else "";
    AtSplit(s, c, "$$", body + close);
    assert s[c] == s[c..c + 2][0] && s[c + 1] == s[c..c + 2][1];
    PairPassed(body, close, s, c + 2, '$', '$');
  }

  /** Nothing else opens a stretch. */
  lemma NothingElseOpens(s: string, c: nat)
    requires c < |s| && s[c] != '\'' && s[c] != '"'
    requires c + 1 < |s| ==>
               var pair := [s[c], s[c + 1]];
               pair != "--" && pair != "//" && pair != "/*" && pair != "$$"
    ensures Skip(s, c) == c
  {}
}
