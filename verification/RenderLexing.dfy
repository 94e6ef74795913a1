/**
 Rendering and lexing. Substituting literals leaves the rest of the statement lexing as it did
 exactly when no character next to a value is disturbed by it; then no placeholder remains, nothing
 new is opened, and the statement count is unchanged.
 */
module RenderLexing {
  import opened CText
  import opened Scanner
  import opened ScannerProofs
  import Literals
  import opened Render
  import opened Lexing

  // ---------------------------------------------------------------- what rendering should lex as

  function Plains(text: string): (r: seq<Token>)
    ensures |r| == |text|
  {
    if text == "" then [] else [Plain(text[0])] + Plains(text[1..])
  }

  function Literal(text: string): Token { Stretch(Literals.StringLiteral(text)) }

  /** A value as tokens: bare characters, or a quoted stretch with what belongs around it. */
  function ValueTokens(v: Value, afterMinus: bool): seq<Token> {
    match v
    case Null => Plains("NULL")
    case Bool(b) => Plains(if b then "TRUE" else "FALSE")
    case Number(text) => Plains(NumberText(text, afterMinus))
    case NotANumber => [Literal("NaN")] + FLOAT_CAST
    case Infinite(positive) => [Literal(if positive then "inf" else "-inf")] + FLOAT_CAST
    case IntString(text) =>
      if Literals.IsNumeric(text) then Plains(NumberText(text, afterMinus)) else [Literal(text)]
    case Text(text) => [Literal(text)]
    case Binary(bytes) => [Plain('X')] + [Literal(Literals.HexPairs(bytes))]
    case Unreadable => []
  }

  const FLOAT_CAST: seq<Token> := [Plain(':'), Plain(':'), Plain('F'), Plain('L'), Plain('O'), Plain('A'), Plain('T')]

  /** What a key is bound to. */
  function Bound(bindings: Bindings, key: Key): Value {
    if key in bindings then bindings[key] else Null
  }

  /** The template's tokens in order, with a value's tokens in place of each placeholder. */
  function Expected(tokens: seq<Token>, position: nat, bindings: Bindings, last: Option<char>): seq<Token>
    decreases |tokens|
  {
    if tokens == [] then []
    else
      match tokens[0]
      case Mark =>
        var vt := ValueTokens(Bound(bindings, Position(position)), last == Some('-'));
        vt + Expected(tokens[1..], position + 1, bindings, LastOf(vt))
      case Name(name) =>
        var vt := ValueTokens(Bound(bindings, Named(name)), last == Some('-'));
        vt + Expected(tokens[1..], position, bindings, LastOf(vt))
      case t => [t] + Expected(tokens[1..], position, bindings, LastChar(TokenText(t)))
  }

  function LastOf(tokens: seq<Token>): Option<char> { LastChar(Flat(tokens)) }

  /** Numbers that long and double formatting can give. */
  predicate Formatted(v: Value) { !v.Unreadable? && (v.Number? ==> Literals.IsNumeric(v.text)) }

  predicate AllFormatted(bindings: Bindings) { forall k :: k in bindings ==> Formatted(bindings[k]) }

  // ---------------------------------------------------------------- the condition

  predicate Joins(prev: Option<char>) { prev.Some? && JoinsDollar(prev.value) }

  predicate Operand(prev: Option<char>) { prev.Some? && EndsOperand(prev.value) }

  /**
   The four ways a neighbour can disturb a token: a quote that extends a string, an identifier
   character that keeps `$$` shut, the lack of one that lets it open, and a name after a colon
   that follows no operand.
   */
  predicate Undisturbed(prev: Option<char>, t: Token, next: Option<char>) {
    match t
    case Stretch(text) =>
      && (FirstChar(text) == Some('\'') ==> next != Some('\''))
      && (FirstChar(text) == Some('$') ==> !Joins(prev))
    case Plain(c) =>
      && !(c == '$' && next == Some('$') && !Joins(prev))
      && !(c == ':' && next.Some? && StartsName(next.value) && !Operand(prev))
    case _ => true
  }

  predicate AllUndisturbed(prev: Option<char>, tokens: seq<Token>)
    decreases |tokens|
  {
    tokens == [] ||
    (Undisturbed(prev, tokens[0], First(tokens[1..])) && AllUndisturbed(LastChar(TokenText(tokens[0])), tokens[1..]))
  }

  // ---------------------------------------------------------------- the text of a rendering

  lemma {:induction false} FlatConcat(xs: seq<Token>, ys: seq<Token>)
    ensures Flat(xs + ys) == Flat(xs) + Flat(ys)
    decreases |xs|
  {
    hide TokenText;
    if xs == [] {
      assert xs + ys == ys;
    } else {
      assert (xs + ys)[1..] == xs[1..] + ys;
      FlatConcat(xs[1..], ys);
    }
  }

  lemma {:induction false} FlatPlains(text: string)
    ensures Flat(Plains(text)) == text
    decreases |text|
  {
    hide TokenText;
    if text != "" {
      FlatPlains(text[1..]);
      assert Plains(text)[1..] == Plains(text[1..]);
      PlainText(text[0]);
      assert text == [text[0]] + text[1..];
    }
  }

  lemma PlainText(c: char)
    ensures TokenText(Plain(c)) == [c]
  {}

  lemma FlatOne(t: Token)
    ensures Flat([t]) == TokenText(t)
  {
    assert [t][1..] == [];
  }

  lemma FlatCast()
    ensures Flat(FLOAT_CAST) == "::FLOAT"
  {
    assert FLOAT_CAST == Plains("::FLOAT");
    FlatPlains("::FLOAT");
  }

  lemma {:induction false} HexIsPlain(s: string)
    requires forall i :: 0 <= i < |s| ==> !Literals.IsSpecial(s[i])
    ensures Literals.Doubled(s) == s
    decreases |s|
  {
    if s != "" {
      HexIsPlain(s[1..]);
      assert s == [s[0]] + s[1..];
    }
  }

  lemma BinaryIsLiteral(bytes: seq<byte>)
    ensures Literals.BinaryLiteral(bytes) == "X" + Literals.StringLiteral(Literals.HexPairs(bytes))
  {
    hide Literals.Doubled, Literals.HexPairs, Literals.Unhex, Literals.IsSpecial;
    Literals.UnhexOfHexPairs(bytes);
    var hex := Literals.HexPairs(bytes);
    forall i | 0 <= i < |hex|
      ensures !Literals.IsSpecial(hex[i])
    {
      HexIsNotSpecial(hex[i]);
    }
    HexIsPlain(hex);
    assert "X'" + (hex + "'") == "X" + ("'" + (hex + "'"));
  }

  lemma HexIsNotSpecial(c: char)
    requires HexDigit(c) < 16
    ensures !Literals.IsSpecial(c)
  {}

  lemma FloatIsLiteral(text: string)
    requires text == "NaN" || text == "inf" || text == "-inf"
    ensures TokenText(Literal(text)) + "::FLOAT" == ("'" + text) + "'::FLOAT"
  {
    HexIsPlain(text);
  }

  /** A value's tokens spell its literal. */
  lemma ValueTokensText(v: Value, afterMinus: bool)
    requires !v.Unreadable?
    ensures Flat(ValueTokens(v, afterMinus)) == ValueText(v, afterMinus)
  {
    hide TokenText, Flat, Plains, NumberText, FLOAT_CAST, Literals.IsNumeric, Literals.StringLiteral,
      Literals.BinaryLiteral;
    match v {
      case Null => FlatPlains("NULL");
      case Bool(b) => FlatPlains(if b then "TRUE" else "FALSE");
      case Number(text) => FlatPlains(NumberText(text, afterMinus));
      case NotANumber => SpecialText(v, afterMinus);
      case Infinite(_) => SpecialText(v, afterMinus);
      case IntString(text) =>
        FlatPlains(NumberText(text, afterMinus));
        LiteralText(text);
      case Text(text) => LiteralText(text);
      case Binary(bytes) =>
        FlatConcat([Plain('X')], [Literal(Literals.HexPairs(bytes))]);
        FlatOne(Plain('X'));
        PlainText('X');
        LiteralText(Literals.HexPairs(bytes));
        BinaryIsLiteral(bytes);
    }
  }

  lemma LiteralText(text: string)
    ensures Flat([Literal(text)]) == Literals.StringLiteral(text)
  {
    FlatOne(Literal(text));
  }

  lemma FloatText(text: string)
    requires text == "NaN" || text == "inf" || text == "-inf"
    ensures Flat([Literal(text)] + FLOAT_CAST) == ("'" + text) + "'::FLOAT"
  {
    FlatConcat([Literal(text)], FLOAT_CAST);
    FlatOne(Literal(text));
    FlatCast();
    FloatIsLiteral(text);
  }

  lemma SpecialText(v: Value, afterMinus: bool)
    requires v.NotANumber? || v.Infinite?
    ensures Flat(ValueTokens(v, afterMinus)) == ValueText(v, afterMinus)
  {
    hide Flat, FLOAT_CAST;
    if v.NotANumber? {
      FloatText("NaN");
    } else {
      FloatText(if v.positive then "inf" else "-inf");
    }
  }

  lemma LastOfConcat(a: string, b: string)
    requires b != ""
    ensures LastChar(a + b) == LastChar(b)
  {}

  /** A value written after `out`: its text, what the output then ends in, and what follows. */
  lemma ValueWritten(out: string, v: Value, more: seq<Token>)
    requires Formatted(v)
    ensures var text := ValueText(v, AfterMinus(out));
            var vt := ValueTokens(v, LastChar(out) == Some('-'));
            && text != "" && LastOf(vt) == LastChar(out + text)
            && out + Flat(vt + more) == (out + text) + Flat(more)
  {
    hide ValueText, ValueTokens, Flat;
    var text := ValueText(v, AfterMinus(out));
    var vt := ValueTokens(v, LastChar(out) == Some('-'));
    ValueTokensText(v, AfterMinus(out));
    ValueNotEmpty(v, AfterMinus(out));
    LastOfConcat(out, text);
    FlatConcat(vt, more);
    assert out + (text + Flat(more)) == (out + text) + Flat(more);
  }

  lemma ValueNotEmpty(v: Value, afterMinus: bool)
    requires Formatted(v)
    ensures ValueText(v, afterMinus) != ""
  {
    if Bare(v) {
      assert !Literals.IsNumeric("");
    }
  }

  lemma CopiedText(out: string, t: Token, more: seq<Token>)
    requires TokenText(t) != ""
    ensures LastChar(out + TokenText(t)) == LastChar(TokenText(t))
    ensures out + Flat([t] + more) == (out + TokenText(t)) + Flat(more)
  {
    var text := TokenText(t);
    LastOfConcat(out, text);
    FlatConcat([t], more);
    FlatOne(t);
    assert out + (text + Flat(more)) == (out + text) + Flat(more);
  }

  /** A successful walk's output is the text of the expected tokens. */
  lemma {:induction false} FillText(tokens: seq<Token>, p: Progress, bindings: Bindings)
    requires Solid(tokens) && AllFormatted(bindings) && Fill(tokens, p, bindings).Filled?
    ensures Fill(tokens, p, bindings).progress.out
         == p.out + Flat(Expected(tokens, p.position, bindings, LastChar(p.out)))
    decreases |tokens|
  {
    hide ValueText, ValueTokens, Formatted, Flat, LastChar, AfterMinus;
    if tokens == [] {
      FlatNone(p.out);
    } else {
      var t, rest := tokens[0], tokens[1..];
      assert t in tokens;
      match t {
        case Mark =>
          var v := bindings[Position(p.position)];
          var text := ValueText(v, AfterMinus(p.out));
          ValueWritten(p.out, v, Expected(rest, p.position + 1, bindings, LastChar(p.out + text)));
          FillText(rest, p.(out := p.out + text, position := p.position + 1, positional := true), bindings);
        case Name(name) =>
          var v := bindings[Named(name)];
          var text := ValueText(v, AfterMinus(p.out));
          ValueWritten(p.out, v, Expected(rest, p.position, bindings, LastChar(p.out + text)));
          FillText(rest, p.(out := p.out + text, named := true, used := p.used + {name}), bindings);
        case _ =>
          var text := TokenText(t);
          CopiedText(p.out, t, Expected(rest, p.position, bindings, LastChar(text)));
          FillText(rest, p.(out := p.out + text), bindings);
      }
    }
  }

  lemma FlatNone(out: string)
    ensures out + Flat([]) == out
  {}

  // ---------------------------------------------------------------- single tokens

  /** When a bare character lexes as itself. */
  lemma PlainFits(prev: Option<char>, c: char, next: Option<char>)
    ensures Fits(prev, Plain(c), next)
            <==> && c != '\'' && c != '"' && c != '?'
                 && !(c == '-' && next == Some('-'))
                 && !(c == '/' && (next == Some('/') || next == Some('*')))
                 && Undisturbed(prev, Plain(c), next)
  {
    var k := |Chars(prev)|;
    var w := Chars(prev) + ([c] + Chars(next));
    assert w[k] == c && (k > 0 ==> w[k - 1] == prev.value) && (next.Some? ==> |w| == k + 2 && w[k + 1] == next.value);
    if c == '\'' || c == '"' {
      assert Skip(w, k) > k;
    }
  }

  /** A character that no neighbour can disturb; a minus is watched separately. */
  predicate Tame(c: char) {
    c != '\'' && c != '"' && c != '?' && c != '/' && c != '$' && c != ':' && c != ';'
  }

  predicate TameText(text: string) {
    && text != ""
    && (forall i :: 0 <= i < |text| ==> Tame(text[i]))
    && (forall i :: 0 <= i < |text| && text[i] == '-' ==> i + 1 < |text| && text[i + 1] != '-')
  }

  lemma {:induction false} TameFits(prev: Option<char>, text: string, rest: seq<Token>)
    requires TameText(text)
    ensures AllFit(prev, Plains(text) + rest) <==> AllFit(LastChar(text), rest)
    ensures AllUndisturbed(prev, Plains(text) + rest) <==> AllUndisturbed(LastChar(text), rest)
    decreases |text|
  {
    hide Fits;
    var tokens := Plains(text) + rest;
    var c := text[0];
    assert tokens[0] == Plain(c) && tokens[1..] == Plains(text[1..]) + rest;
    var next := First(tokens[1..]);
    if |text| == 1 {
      assert Plains(text[1..]) + rest == rest;
      PlainFits(prev, c, next);
    } else {
      assert tokens[1] == Plain(text[1]);
      assert next == Some(text[1]);
      PlainFits(prev, c, next);
      TameFits(Some(c), text[1..], rest);
    }
  }

  /** A quoted literal lexes as itself unless a quote follows. */
  lemma LiteralFits(prev: Option<char>, text: string, next: Option<char>)
    ensures Fits(prev, Literal(text), next) <==> next != Some('\'')
    ensures Undisturbed(prev, Literal(text), next) <==> next != Some('\'')
  {
    hide Literals.Doubled, Skip;
    var lit := Literals.StringLiteral(text);
    var k := |Chars(prev)|;
    var w := Chars(prev) + (lit + Chars(next));
    assert w[k..k + |lit|] == lit;
    assert lit[0] == '\'' && w[k] == '\'';
    if next == Some('\'') {
      assert w[k + |lit|] == '\'';
      Overrun(text, w, k);
    } else {
      assert next.Some? ==> w[k + |lit|] == next.value;
      Literals.LiteralInverse(text, w, k);
    }
  }

  /** A quote right after a literal keeps the scanner going. */
  lemma Overrun(text: string, s: string, c: nat)
    requires At(s, c, Literals.StringLiteral(text))
    requires c + |Literals.StringLiteral(text)| < |s| && s[c + |Literals.StringLiteral(text)|] == '\''
    ensures c < |s| && Skip(s, c) > c + |Literals.StringLiteral(text)|
  {
    AtSplit(s, c, "'", Literals.Doubled(text) + "'");
    assert s[c] == s[c..c + 1][0];
    OverrunBody(text, s, c + 1);
  }

  lemma {:induction false} OverrunBody(text: string, s: string, p: nat)
    requires At(s, p, Literals.Doubled(text) + "'")
    requires p + |Literals.Doubled(text)| + 1 < |s| && s[p + |Literals.Doubled(text)| + 1] == '\''
    ensures QuoteEnd(s, p) > p + |Literals.Doubled(text)| + 1
    decreases |text|
  {
    AtSplit(s, p, Literals.Doubled(text), "'");
    if text == [] {
      assert s[p] == s[p..p + 1][0];
    } else {
      var head := if Literals.IsSpecial(text[0]) then [text[0], text[0]] else [text[0]];
      var rest := Literals.Doubled(text[1..]) + "'";
      assert Literals.Doubled(text) + "'" == head + rest;
      AtSplit(s, p, head, rest);
      assert s[p] == s[p..p + |head|][0] && (|head| == 2 ==> s[p + 1] == s[p..p + |head|][1]);
      OverrunBody(text[1..], s, p + |head|);
    }
  }

  // ---------------------------------------------------------------- what values begin and end with

  predicate ValueStart(c: char) {
    IsAlnum(c) || c == '+' || c == '-' || c == '.' || Literals.IsBlank(c) || c == '\''
  }

  predicate ValueEnd(c: char) { IsAlnum(c) || c == '.' || Literals.IsBlank(c) || c == '\'' }

  predicate NumberChar(c: char) {
    IsDigit(c) || c == '+' || c == '-' || c == '.' || c == 'e' || c == 'E' || Literals.IsBlank(c)
  }

  /** From state `n` on, an accepted text holds number characters only, no two minuses, no minus last. */
  lemma {:induction false} NumericShape(n: Literals.Numeral, s: string, i: nat)
    requires i <= |s| && Literals.Accepting(Literals.RunFrom(n, s, i))
    ensures forall k :: i <= k < |s| ==> NumberChar(s[k])
    ensures forall k :: i <= k < |s| && s[k] == '-' ==> k + 1 < |s| && s[k + 1] != '-'
    ensures i < |s| ==> ValueEnd(s[|s| - 1])
    decreases |s| - i
  {
    if i < |s| {
      var next := Literals.Next(n, s[i]);
      if next == Literals.Dead {
        Literals.DeadStays(s, i + 1);
      }
      if s[i] == '-' && i + 1 < |s| && Literals.Next(next, s[i + 1]) == Literals.Dead {
        Literals.DeadStays(s, i + 2);
      }
      NumericShape(next, s, i + 1);
    }
  }

  /** A number as rendered is tame, and starts with no minus after a minus. */
  lemma NumberIsTame(text: string, afterMinus: bool)
    requires Literals.IsNumeric(text)
    ensures var r := NumberText(text, afterMinus);
            TameText(r) && ValueStart(r[0]) && ValueEnd(r[|r| - 1]) && (afterMinus ==> r[0] != '-')
  {
    NumericShape(Literals.Start, text, 0);
    assert text != "";
    assert NumberChar(text[0]);
  }

  lemma KeywordIsTame(text: string)
    requires text == "NULL" || text == "TRUE" || text == "FALSE" || text == "X" || text == "FLOAT"
    ensures TameText(text) && ValueStart(text[0]) && ValueEnd(text[|text| - 1]) && text[0] != '-'
  {}

  /** The cast after a special double lexes as written: neither colon opens a parameter. */
  lemma CastFits(rest: seq<Token>)
    ensures AllFit(Some('\''), FLOAT_CAST + rest) <==> AllFit(Some('T'), rest)
    ensures AllUndisturbed(Some('\''), FLOAT_CAST + rest) <==> AllUndisturbed(Some('T'), rest)
  {
    hide Fits;
    var float := Plains("FLOAT");
    assert float == [Plain('F'), Plain('L'), Plain('O'), Plain('A'), Plain('T')];
    var tokens := FLOAT_CAST + rest;
    assert tokens == [Plain(':')] + ([Plain(':')] + (float + rest));
    assert tokens[1..] == [Plain(':')] + (float + rest) && tokens[1..][1..] == float + rest;
    assert (float + rest)[0] == Plain('F');
    PlainFits(Some('\''), ':', Some(':'));
    PlainFits(Some(':'), ':', Some('F'));
    KeywordIsTame("FLOAT");
    TameFits(Some(':'), "FLOAT", rest);
  }

  /** What a value adds to either side of the equivalence: the same condition on what follows it. */
  lemma ValueFits(prev: Option<char>, v: Value, afterMinus: bool, rest: seq<Token>)
    requires Formatted(v)
    ensures var vt := ValueTokens(v, afterMinus);
            (AllFit(prev, vt + rest) <==> AllUndisturbed(prev, vt + rest))
            <== (AllFit(LastOf(vt), rest) <==> AllUndisturbed(LastOf(vt), rest))
  {
    hide Fits, Literals.IsNumeric, TameText, Undisturbed;
    var vt := ValueTokens(v, afterMinus);
    match v {
      case Null => TameValue(prev, "NULL", rest);
      case Bool(b) => TameValue(prev, if b then "TRUE" else "FALSE", rest);
      case Number(text) =>
        NumberIsTame(text, afterMinus);
        TamePlains(prev, NumberText(text, afterMinus), rest);
      case IntString(text) =>
        if Literals.IsNumeric(text) {
          NumberIsTame(text, afterMinus);
          TamePlains(prev, NumberText(text, afterMinus), rest);
        } else {
          QuotedFits(prev, text, rest);
        }
      case Text(text) => QuotedFits(prev, text, rest);
      case NotANumber => SpecialFits(prev, "NaN", rest);
      case Infinite(positive) => SpecialFits(prev, if positive then "inf" else "-inf", rest);
      case Binary(bytes) =>
        var lit := [Literal(Literals.HexPairs(bytes))];
        QuotedFits(Some('X'), Literals.HexPairs(bytes), rest);
        KeywordIsTame("X");
        TameFits(prev, "X", lit + rest);
        assert Plains("X") == [Plain('X')];
        assert vt + rest == [Plain('X')] + (lit + rest);
        FlatConcat([Plain('X')], lit);
        LiteralText(Literals.HexPairs(bytes));
        LastOfConcat(Flat([Plain('X')]), Flat(lit));
    }
  }

  lemma TamePlains(prev: Option<char>, text: string, rest: seq<Token>)
    requires TameText(text)
    ensures LastOf(Plains(text)) == LastChar(text)
    ensures AllFit(prev, Plains(text) + rest) <==> AllFit(LastChar(text), rest)
    ensures AllUndisturbed(prev, Plains(text) + rest) <==> AllUndisturbed(LastChar(text), rest)
  {
    FlatPlains(text);
    TameFits(prev, text, rest);
  }

  lemma TameValue(prev: Option<char>, text: string, rest: seq<Token>)
    requires text == "NULL" || text == "TRUE" || text == "FALSE"
    ensures LastOf(Plains(text)) == LastChar(text)
    ensures AllFit(prev, Plains(text) + rest) <==> AllFit(LastChar(text), rest)
    ensures AllUndisturbed(prev, Plains(text) + rest) <==> AllUndisturbed(LastChar(text), rest)
  {
    KeywordIsTame(text);
    TamePlains(prev, text, rest);
  }

  lemma QuotedFits(prev: Option<char>, text: string, rest: seq<Token>)
    ensures LastOf([Literal(text)]) == Some('\'')
    ensures AllFit(prev, [Literal(text)] + rest) <==> First(rest) != Some('\'') && AllFit(Some('\''), rest)
    ensures AllUndisturbed(prev, [Literal(text)] + rest)
            <==> First(rest) != Some('\'') && AllUndisturbed(Some('\''), rest)
  {
    hide Fits, Undisturbed;
    var tokens := [Literal(text)] + rest;
    assert tokens[1..] == rest;
    LiteralFits(prev, text, First(rest));
    LiteralText(text);
  }

  lemma SpecialFits(prev: Option<char>, text: string, rest: seq<Token>)
    ensures var vt := [Literal(text)] + FLOAT_CAST;
            && (AllFit(prev, vt + rest) <==> AllFit(LastOf(vt), rest))
            && (AllUndisturbed(prev, vt + rest) <==> AllUndisturbed(LastOf(vt), rest))
  {
    hide Fits, Undisturbed;
    var vt := [Literal(text)] + FLOAT_CAST;
    assert vt + rest == [Literal(text)] + (FLOAT_CAST + rest);
    QuotedFits(prev, text, FLOAT_CAST + rest);
    assert (FLOAT_CAST + rest)[0] == Plain(':');
    CastFits(rest);
    FlatConcat([Literal(text)], FLOAT_CAST);
    FlatCast();
    LastOfConcat(Flat([Literal(text)]), "::FLOAT");
  }

  /** A value's first and last characters. */
  lemma ValueEnds(v: Value, afterMinus: bool, rest: seq<Token>)
    requires Formatted(v)
    ensures var vt := ValueTokens(v, afterMinus);
            && First(vt + rest).Some? && ValueStart(First(vt + rest).value)
            && (afterMinus ==> First(vt + rest) != Some('-'))
            && LastOf(vt).Some? && ValueEnd(LastOf(vt).value)
  {
    hide Literals.IsNumeric, TameText, Flat, TokenText, Plains;
    var vt := ValueTokens(v, afterMinus);
    match v {
      case Null => PlainEnds("NULL", rest);
      case Bool(b) => PlainEnds(if b then "TRUE" else "FALSE", rest);
      case Number(text) => NumberEnds(text, afterMinus, rest);
      case IntString(text) =>
        if Literals.IsNumeric(text) {
          NumberEnds(text, afterMinus, rest);
        } else {
          QuotedEnds(text, rest);
        }
      case Text(text) => QuotedEnds(text, rest);
      case NotANumber => SpecialEnds("NaN", rest);
      case Infinite(positive) => SpecialEnds(if positive then "inf" else "-inf", rest);
      case Binary(bytes) =>
        var lit := [Literal(Literals.HexPairs(bytes))];
        QuotedEnds(Literals.HexPairs(bytes), []);
        LiteralText(Literals.HexPairs(bytes));
        FlatConcat([Plain('X')], lit);
        LastOfConcat(Flat([Plain('X')]), Flat(lit));
        assert (vt + rest)[0] == Plain('X');
        PlainText('X');
    }
  }

  lemma PlainEnds(text: string, rest: seq<Token>)
    requires text == "NULL" || text == "TRUE" || text == "FALSE"
    ensures First(Plains(text) + rest) == Some(text[0]) && LastOf(Plains(text)) == LastChar(text)
    ensures ValueStart(text[0]) && ValueEnd(text[|text| - 1]) && text[0] != '-'
  {
    KeywordIsTame(text);
    FlatPlains(text);
    assert (Plains(text) + rest)[0] == Plain(text[0]);
  }

  lemma NumberEnds(text: string, afterMinus: bool, rest: seq<Token>)
    requires Literals.IsNumeric(text)
    ensures var r := NumberText(text, afterMinus);
            && r != "" && First(Plains(r) + rest) == Some(r[0]) && LastOf(Plains(r)) == LastChar(r)
            && ValueStart(r[0]) && ValueEnd(r[|r| - 1]) && (afterMinus ==> r[0] != '-')
  {
    var r := NumberText(text, afterMinus);
    NumberIsTame(text, afterMinus);
    FlatPlains(r);
    assert (Plains(r) + rest)[0] == Plain(r[0]);
  }

  lemma QuotedEnds(text: string, rest: seq<Token>)
    ensures First([Literal(text)] + rest) == Some('\'') && LastOf([Literal(text)]) == Some('\'')
  {
    QuotedFits(None, text, rest);
    assert ([Literal(text)] + rest)[0] == Literal(text);
  }

  lemma SpecialEnds(text: string, rest: seq<Token>)
    ensures First([Literal(text)] + FLOAT_CAST + rest) == Some('\'')
    ensures LastOf([Literal(text)] + FLOAT_CAST) == Some('T')
  {
    assert ([Literal(text)] + FLOAT_CAST + rest)[0] == Literal(text);
    FlatConcat([Literal(text)], FLOAT_CAST);
    FlatCast();
    LastOfConcat(Flat([Literal(text)]), "::FLOAT");
  }

  // ---------------------------------------------------------------- a template's token in the output

  /** The character before, in the output: the template's own, or a value's last for a placeholder's. */
  predicate PrevSwap(lt: Option<char>, lo: Option<char>) {
    lt == lo || (lt.Some? && lo.Some? && (lt.value == '?' || InName(lt.value)) && ValueEnd(lo.value))
  }

  /** The character after: the template's own, or a value's first for a placeholder's. */
  predicate NextSwap(t: Token, nt: Option<char>, no: Option<char>) {
    nt == no ||
    (&& nt.Some? && no.Some? && (nt.value == '?' || nt.value == ':') && ValueStart(no.value)
     && (LastChar(TokenText(t)) == Some('-') ==> no.value != '-'))
  }

  lemma PlainSwap(lt: Option<char>, lo: Option<char>, c: char, nt: Option<char>, no: Option<char>)
    requires Fits(lt, Plain(c), nt) && PrevSwap(lt, lo) && NextSwap(Plain(c), nt, no)
    ensures Fits(lo, Plain(c), no) <==> Undisturbed(lo, Plain(c), no)
  {
    hide Fits;
    PlainFits(lt, c, nt);
    PlainFits(lo, c, no);
  }

  /** One character more decides where a quoted stretch ends. */
  lemma {:induction false} QuoteDecided(s: string, p: nat, t: string)
    requires p < |s| == |t| && s[..|s| - 1] == t[..|t| - 1]
    requires QuoteEnd(s, p) == |s| - 1
    ensures QuoteEnd(t, p) == |t| - 1 <==> t[|t| - 1] != '\''
    decreases |s| - p
  {
    assert forall i :: 0 <= i < |s| - 1 ==> s[i] == s[..|s| - 1][i] == t[..|t| - 1][i] == t[i];
    if s[p] == '\\' && p + 1 < |s| {
      QuoteDecided(s, p + 2, t);
    } else if s[p] == '\'' {
      if p + 1 < |s| && s[p + 1] == '\'' {
        QuoteDecided(s, p + 2, t);
      }
    } else {
      QuoteDecided(s, p + 1, t);
    }
  }

  lemma {:induction false} IdentDecided(s: string, p: nat, t: string)
    requires p < |s| == |t| && s[..|s| - 1] == t[..|t| - 1]
    requires IdentEnd(s, p) == |s| - 1
    ensures IdentEnd(t, p) == |t| - 1 <==> t[|t| - 1] != '"'
    decreases |s| - p
  {
    assert forall i :: 0 <= i < |s| - 1 ==> s[i] == s[..|s| - 1][i] == t[..|t| - 1][i] == t[i];
    if s[p] == '"' {
      if p + 1 < |s| && s[p + 1] == '"' {
        IdentDecided(s, p + 2, t);
      }
    } else {
      IdentDecided(s, p + 1, t);
    }
  }

  /** The length of the stretch at the front of `x`, given whether a body may open there; 0 for none. */
  function SkipIn(free: bool, x: string): nat
    requires x != ""
  {
    if x[0] == '\'' then QuoteEnd(x, 1)
    else if x[0] == '"' then IdentEnd(x, 1)
    else if OpensLine(x, 0) then LineEnd(x, 2)
    else if OpensBlock(x, 0) then PairEnd(x, 2, '*', '/')
    else if Pair(x, 0, '$', '$') && free then PairEnd(x, 2, '$', '$')
    else 0
  }

  lemma AfterPrev(prev: Option<char>, x: string)
    requires x != ""
    ensures var w := Chars(prev) + x; var k := |Chars(prev)|; var m := |x|;
            && |w| == k + m && w[k] == x[0] && (m > 1 ==> w[k + 1] == x[1])
            && (prev.Some? ==> k == 1 && w[0] == prev.value) && Same(x, 0, w, k, m)
  {
    hide Same;
    var w, k, m := Chars(prev) + x, |Chars(prev)|, |x|;
    assert w[k..k + m] == x == x[0..m];
    SameIfEqual(x, 0, w, k, m);
  }

  lemma SkipAfter(prev: Option<char>, x: string)
    requires x != ""
    ensures var w := Chars(prev) + x; var k := |Chars(prev)|;
            Skip(w, k) == k + SkipIn(!Joins(prev), x)
  {
    hide QuoteEnd, IdentEnd, LineEnd, PairEnd, Same;
    var w, k, m := Chars(prev) + x, |Chars(prev)|, |x|;
    AfterPrev(prev, x);
    if x[0] == '\'' {
      SameTail(x, 0, w, k, m, 1);
      QuoteEndMoves(x, 1, w, k + 1, m - 1);
    } else if x[0] == '"' {
      SameTail(x, 0, w, k, m, 1);
      IdentEndMoves(x, 1, w, k + 1, m - 1);
    } else if m > 1 {
      SameTail(x, 0, w, k, m, 2);
      if OpensLine(x, 0) {
        LineEndMoves(x, 2, w, k + 2, m - 2);
      } else if OpensBlock(x, 0) {
        PairEndMoves(x, 2, w, k + 2, m - 2, '*', '/');
      } else if Pair(x, 0, '$', '$') && !Joins(prev) {
        PairEndMoves(x, 2, w, k + 2, m - 2, '$', '$');
      }
    }
  }

  lemma StretchFits(prev: Option<char>, text: string, next: Option<char>)
    requires text != ""
    ensures Fits(prev, Stretch(text), next) <==> SkipIn(!Joins(prev), text + Chars(next)) == |text|
  {
    hide Skip, SkipIn;
    var x := text + Chars(next);
    var w, k := Chars(prev) + x, |Chars(prev)|;
    SkipAfter(prev, x);
    assert w[k..k + |text|] == text;
  }

  lemma CommentSwap(x: string, y: string, n: nat)
    requires 2 <= n < |x| && n < |y| && x[..n] == y[..n]
    ensures OpensLine(x, 0) == OpensLine(y, 0) && OpensBlock(x, 0) == OpensBlock(y, 0)
    ensures Pair(x, 0, '$', '$') == Pair(y, 0, '$', '$')
    ensures LineEnd(x, 2) == n ==> LineEnd(y, 2) == n
    ensures PairEnd(x, 2, '*', '/') == n ==> PairEnd(y, 2, '*', '/') == n
    ensures PairEnd(x, 2, '$', '$') == n ==> PairEnd(y, 2, '$', '$') == n
  {
    assert x[0] == x[..n][0] == y[..n][0] == y[0] && x[1] == x[..n][1] == y[..n][1] == y[1];
    assert x[2..n] == x[..n][2..] && y[2..n] == y[..n][2..];
    SameIfEqual(x, 2, y, 2, n - 2);
    if LineEnd(x, 2) == n {
      LineEndMoves(x, 2, y, 2, n - 2);
    }
    if PairEnd(x, 2, '*', '/') == n {
      PairEndMoves(x, 2, y, 2, n - 2, '*', '/');
    }
    if PairEnd(x, 2, '$', '$') == n {
      PairEndMoves(x, 2, y, 2, n - 2, '$', '$');
    }
  }

  lemma StretchSwap(lt: Option<char>, lo: Option<char>, text: string, nt: Option<char>, no: Option<char>)
    requires Fits(lt, Stretch(text), nt) && PrevSwap(lt, lo) && NextSwap(Stretch(text), nt, no)
    ensures Fits(lo, Stretch(text), no) <==> Undisturbed(lo, Stretch(text), no)
  {
    hide Fits;
    FitsNotEmpty(lt, Stretch(text), nt);
    StretchFits(lt, text, nt);
    StretchFits(lo, text, no);
    SkipSwap(lt, lo, text, nt, no);
  }

  lemma FitsNotEmpty(prev: Option<char>, t: Token, next: Option<char>)
    requires Fits(prev, t, next)
    ensures TokenText(t) != ""
  {}

  lemma SkipSwap(lt: Option<char>, lo: Option<char>, text: string, nt: Option<char>, no: Option<char>)
    requires text != "" && NextSwap(Stretch(text), nt, no)
    requires SkipIn(!Joins(lt), text + Chars(nt)) == |text|
    ensures SkipIn(!Joins(lo), text + Chars(no)) == |text| <==> Undisturbed(lo, Stretch(text), no)
  {
    hide QuoteEnd, IdentEnd, LineEnd, PairEnd;
    var x, y := text + Chars(nt), text + Chars(no);
    assert x[0] == text[0] == y[0];
    if nt.None? {
      assert y == x;
      if x[0] == '\'' || x[0] == '"' {
      } else {
        ShortSkip(x, |text|);
      }
    } else {
      assert x[..|x| - 1] == text == y[..|y| - 1];
      if x[0] == '\'' {
        QuoteDecided(x, 1, y);
      } else if x[0] == '"' {
        IdentDecided(x, 1, y);
        IdentNext(x, |text|);
      } else {
        ShortSkip(x, |text|);
        CommentSwap(x, y, |text|);
      }
    }
  }

  /** A comment or body is at least two characters long. */
  lemma ShortSkip(x: string, n: nat)
    requires x != "" && x[0] != '\'' && x[0] != '"' && n > 0
    requires SkipIn(true, x) == n || SkipIn(false, x) == n
    ensures n >= 2
  {}

  lemma IdentNext(x: string, n: nat)
    requires x != "" && IdentEnd(x, 1) == n == |x| - 1
    ensures x[n] != '"'
  {
    IdentStops(x, 1);
  }

  lemma {:induction false} IdentStops(x: string, p: nat)
    requires p <= |x| && IdentEnd(x, p) < |x|
    ensures x[IdentEnd(x, p)] != '"'
    decreases |x| - p
  {
    if x[p] == '"' {
      if p + 1 < |x| && x[p + 1] == '"' {
        IdentStops(x, p + 2);
      }
    } else {
      IdentStops(x, p + 1);
    }
  }

  // ---------------------------------------------------------------- the theorem

  /** The first character of what replaces the rest of the template. */
  lemma FirstExpected(tokens: seq<Token>, position: nat, bindings: Bindings, last: Option<char>, t: Token,
                      lt: Option<char>)
    requires AllFormatted(bindings) && Solid(tokens) && LastChar(TokenText(t)) == last && AllFit(lt, tokens)
    ensures NextSwap(t, First(tokens), First(Expected(tokens, position, bindings, last)))
  {
    hide Fits, ValueTokens;
    if tokens != [] {
      var head, rest := tokens[0], tokens[1..];
      assert head in tokens;
      match head {
        case Mark =>
          var v := Bound(bindings, Position(position));
          var vt := ValueTokens(v, last == Some('-'));
          ValueEnds(v, last == Some('-'), Expected(rest, position + 1, bindings, LastOf(vt)));
        case Name(name) =>
          NameShape(lt, name, First(rest));
          var v := Bound(bindings, Named(name));
          var vt := ValueTokens(v, last == Some('-'));
          ValueEnds(v, last == Some('-'), Expected(rest, position, bindings, LastOf(vt)));
        case _ =>
      }
    }
  }

  /** A named placeholder starts with a colon and ends in a name character. */
  lemma NameShape(prev: Option<char>, name: string, next: Option<char>)
    requires Fits(prev, Name(name), next)
    ensures name != "" && name[0] == ':' && InName(name[|name| - 1])
  {
    hide Skip;
    var k := |Chars(prev)|;
    var w := Chars(prev) + (name + Chars(next));
    assert TokenAt(w, k) == (Name(name), k + |name|);
    assert w[k] == ':' && OpensName(w, k) && name == w[k..NameEnd(w, k + 1)];
    NameEndsInName(w, k + 1);
  }

  lemma {:induction false} NameEndsInName(s: string, p: nat)
    requires p < |s| && InName(s[p])
    ensures NameEnd(s, p) > p && InName(s[NameEnd(s, p) - 1])
    decreases |s| - p
  {
    if p + 1 < |s| && InName(s[p + 1]) {
      NameEndsInName(s, p + 1);
    }
  }

  /** The rendering lexes as expected exactly when no token is disturbed. */
  lemma {:induction false} ExpectedFits(tokens: seq<Token>, position: nat, bindings: Bindings,
                                       lt: Option<char>, lo: Option<char>)
    requires AllFormatted(bindings) && Solid(tokens) && AllFit(lt, tokens) && PrevSwap(lt, lo)
    ensures var e := Expected(tokens, position, bindings, lo);
            AllFit(lo, e) <==> AllUndisturbed(lo, e)
    decreases |tokens|
  {
    hide Fits, ValueTokens, Undisturbed, NextSwap, AllFormatted, TokenText;
    if tokens != [] {
      var t, rest := tokens[0], tokens[1..];
      assert t in tokens;
      match t {
        case Mark =>
          MarkText();
          ValueExpected(rest, position + 1, bindings, Position(position), Some('?'), lo);
          var vt := ValueTokens(Bound(bindings, Position(position)), lo == Some('-'));
          ExpectedFits(rest, position + 1, bindings, Some('?'), LastOf(vt));
          ValueFits(lo, Bound(bindings, Position(position)), lo == Some('-'),
                    Expected(rest, position + 1, bindings, LastOf(vt)));
        case Name(name) =>
          NameShape(lt, name, First(rest));
          NameText(name);
          ValueExpected(rest, position, bindings, Named(name), LastChar(name), lo);
          var vt := ValueTokens(Bound(bindings, Named(name)), lo == Some('-'));
          ExpectedFits(rest, position, bindings, LastChar(name), LastOf(vt));
          ValueFits(lo, Bound(bindings, Named(name)), lo == Some('-'), Expected(rest, position, bindings, LastOf(vt)));
        case Stretch(text) =>
          var last := LastChar(TokenText(t));
          var more := Expected(rest, position, bindings, last);
          assert ([t] + more)[1..] == more;
          FirstExpected(rest, position, bindings, last, t, last);
          StretchSwap(lt, lo, text, First(rest), First(more));
          ExpectedFits(rest, position, bindings, last, last);
        case Plain(c) =>
          var last := LastChar(TokenText(t));
          var more := Expected(rest, position, bindings, last);
          assert ([t] + more)[1..] == more;
          FirstExpected(rest, position, bindings, last, t, last);
          PlainSwap(lt, lo, c, First(rest), First(more));
          ExpectedFits(rest, position, bindings, last, last);
      }
    }
  }

  lemma MarkText()
    ensures TokenText(Mark) == "?"
  {}

  lemma NameText(name: string)
    ensures TokenText(Name(name)) == name
  {}

  /** After a placeholder the output stands after its value. */
  lemma ValueExpected(rest: seq<Token>, position: nat, bindings: Bindings, key: Key, lt: Option<char>, lo: Option<char>)
    requires AllFormatted(bindings) && lt.Some? && (lt.value == '?' || InName(lt.value))
    ensures var v := Bound(bindings, key);
            Formatted(v) && PrevSwap(lt, LastOf(ValueTokens(v, lo == Some('-'))))
  {
    ValueEnds(Bound(bindings, key), lo == Some('-'), []);
  }
}
