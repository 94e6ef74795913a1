/** What rendering does to a statement: the exact condition for a faithful rescan, and its uses. */
module RenderTheorems {
  import opened CText
  import Literals
  import opened Render
  import opened RenderBindings
  import opened Lexing
  import opened RenderLexing
  import Tracker

  // ---------------------------------------------------------------- the exact condition

  lemma {:induction false} SolidConcat(xs: seq<Token>, ys: seq<Token>)
    ensures Solid(xs + ys) <==> Solid(xs) && Solid(ys)
  {
    assert forall t :: t in xs + ys <==> t in xs || t in ys;
  }

  lemma {:induction false} PlainsAreSolid(text: string)
    ensures Solid(Plains(text)) && forall t :: t in Plains(text) ==> t.Plain? && t.c in text
    decreases |text|
  {
    if text != "" {
      PlainsAreSolid(text[1..]);
      assert Plains(text) == [Plain(text[0])] + Plains(text[1..]);
    }
  }

  /** A value's tokens are solid, and neither placeholders nor statement ends. */
  predicate Inert(tokens: seq<Token>) {
    forall t :: t in tokens ==> TokenText(t) != "" && (t.Stretch? || (t.Plain? && t.c != ';'))
  }

  lemma ValueIsInert(v: Value, afterMinus: bool)
    requires Formatted(v)
    ensures Inert(ValueTokens(v, afterMinus))
  {
    hide Literals.IsNumeric;
    match v {
      case Null => TameIsInert("NULL");
      case Bool(b) => TameIsInert(if b then "TRUE" else "FALSE");
      case Number(text) => NumberIsInert(text, afterMinus);
      case IntString(text) =>
        if Literals.IsNumeric(text) {
          NumberIsInert(text, afterMinus);
        }
      case _ =>
    }
  }

  lemma TameIsInert(text: string)
    requires text == "NULL" || text == "TRUE" || text == "FALSE"
    ensures Inert(Plains(text))
  {
    KeywordIsTame(text);
    PlainsAreSolid(text);
  }

  lemma NumberIsInert(text: string, afterMinus: bool)
    requires Literals.IsNumeric(text)
    ensures Inert(Plains(NumberText(text, afterMinus)))
  {
    NumberIsTame(text, afterMinus);
    PlainsAreSolid(NumberText(text, afterMinus));
  }

  function Semicolons(tokens: seq<Token>): nat
    decreases |tokens|
  {
    if tokens == [] then 0 else (if tokens[0] == Plain(';') then 1 else 0) + Semicolons(tokens[1..])
  }

  lemma {:induction false} InertCounts(xs: seq<Token>, ys: seq<Token>)
    requires Inert(xs)
    ensures Semicolons(xs + ys) == Semicolons(ys) && Marks(xs + ys) == Marks(ys) && Names(xs + ys) == Names(ys)
    decreases |xs|
  {
    if xs == [] {
      assert xs + ys == ys;
    } else {
      assert xs[0] in xs && (xs + ys)[1..] == xs[1..] + ys;
      InertCounts(xs[1..], ys);
    }
  }

  /** The expected tokens are solid, hold no placeholder, and as many statement ends as the template. */
  lemma {:induction false} ExpectedCounts(tokens: seq<Token>, position: nat, bindings: Bindings, last: Option<char>)
    requires AllFormatted(bindings) && Solid(tokens)
    ensures var e := Expected(tokens, position, bindings, last);
            Solid(e) && Marks(e) == 0 && Names(e) == {} && Semicolons(e) == Semicolons(tokens)
    decreases |tokens|
  {
    hide ValueTokens, TokenText, AllFormatted, LastChar, Flat;
    if tokens != [] {
      var t, rest := tokens[0], tokens[1..];
      assert t in tokens;
      match t {
        case Mark =>
          ValueCounts(rest, position + 1, bindings, Position(position), last);
          ExpectedCounts(rest, position + 1, bindings,
                         LastOf(ValueTokens(Bound(bindings, Position(position)), last == Some('-'))));
        case Name(name) =>
          ValueCounts(rest, position, bindings, Named(name), last);
          var vt := ValueTokens(Bound(bindings, Named(name)), last == Some('-'));
          ExpectedCounts(rest, position, bindings, LastOf(vt));
        case _ =>
          var more := Expected(rest, position, bindings, LastChar(TokenText(t)));
          ExpectedCounts(rest, position, bindings, LastChar(TokenText(t)));
          assert ([t] + more)[1..] == more;
      }
    }
  }

  lemma ValueCounts(rest: seq<Token>, position: nat, bindings: Bindings, key: Key, last: Option<char>)
    requires AllFormatted(bindings)
    ensures var vt := ValueTokens(Bound(bindings, key), last == Some('-'));
            var more := Expected(rest, position, bindings, LastOf(vt));
            && (Solid(more) ==> Solid(vt + more))
            && Semicolons(vt + more) == Semicolons(more) && Marks(vt + more) == Marks(more)
            && Names(vt + more) == Names(more)
  {
    hide ValueTokens, Expected;
    var vt := ValueTokens(Bound(bindings, key), last == Some('-'));
    var more := Expected(rest, position, bindings, LastOf(vt));
    ValueIsInert(Bound(bindings, key), last == Some('-'));
    InertCounts(vt, more);
    SolidConcat(vt, more);
  }

  /** What a rendering should lex as. */
  function Rescanned(s: string, bindings: Bindings): seq<Token> {
    Expected(Lex(s, 0), 0, bindings, None)
  }

  /** The rendered text spells the template's tokens with the values' tokens between them. */
  lemma {:induction false} RenderedText(s: string, bindings: Bindings, out: string)
    requires bindings != map[] && AllFormatted(bindings) && RenderStatement(s, bindings) == Rendered(out)
    ensures Flat(Rescanned(s, bindings)) == out
  {
    hide Fill, Lex, Flat, Expected, Solid, AllFormatted;
    FlatOfLex(s, 0);
    FillText(Lex(s, 0), NOT_STARTED, bindings);
    assert "" + Flat(Rescanned(s, bindings)) == Flat(Rescanned(s, bindings));
  }

  /**
   Rendering preserves lexing, exactly: rescanning the rendered text finds the template's tokens in
   order with the values' tokens between them if and only if no token is disturbed by a neighbour.
   */
  lemma {:induction false} RescanExact(s: string, bindings: Bindings, out: string)
    requires bindings != map[] && AllFormatted(bindings) && RenderStatement(s, bindings) == Rendered(out)
    ensures Lex(out, 0) == Rescanned(s, bindings) <==> AllUndisturbed(None, Rescanned(s, bindings))
  {
    hide Fill, Lex, Flat, Expected, AllFit, AllUndisturbed, Solid, AllFormatted;
    var tokens, e := Lex(s, 0), Rescanned(s, bindings);
    FlatOfLex(s, 0);
    LexedFits(s);
    RenderedText(s, bindings, out);
    ExpectedCounts(tokens, 0, bindings, None);
    ExpectedFits(tokens, 0, bindings, None, None);
    assert out[0..] == out;
    LexFits(e, out, 0);
  }

  // ---------------------------------------------------------------- what follows from it

  /** No placeholder remains for a second rendering to find. */
  lemma NoPlaceholderRemains(s: string, bindings: Bindings, out: string)
    requires bindings != map[] && AllFormatted(bindings) && RenderStatement(s, bindings) == Rendered(out)
    requires AllUndisturbed(None, Rescanned(s, bindings))
    ensures Marks(Lex(out, 0)) == 0 && Names(Lex(out, 0)) == {}
  {
    hide Fill, Lex, Flat, Expected, AllUndisturbed;
    RescanExact(s, bindings, out);
    FlatOfLex(s, 0);
    ExpectedCounts(Lex(s, 0), 0, bindings, None);
  }

  /** The tracker sees as many statements in the rendered text as in the template. */
  lemma {:induction false} StatementCountKept(s: string, bindings: Bindings, out: string)
    requires bindings != map[] && AllFormatted(bindings) && RenderStatement(s, bindings) == Rendered(out)
    requires AllUndisturbed(None, Rescanned(s, bindings))
    ensures |Tracker.Statements(out, 0)| == |Tracker.Statements(s, 0)|
  {
    hide Fill, Lex, Flat, Expected, AllUndisturbed;
    RescanExact(s, bindings, out);
    FlatOfLex(s, 0);
    ExpectedCounts(Lex(s, 0), 0, bindings, None);
    StatementsAreSemicolons(s, 0);
    StatementsAreSemicolons(out, 0);
  }

  /** The tracker's statements are counted by the top-level semicolons of the lexer. */
  lemma {:induction false} StatementsAreSemicolons(s: string, c: nat)
    requires c <= |s|
    ensures |Tracker.Statements(s, c)| == 1 + Semicolons(Lex(s, c))
    decreases |s| - c
  {
    hide TokenAt;
    if c < |s| {
      var (t, e) := TokenAt(s, c);
      assert Lex(s, c)[1..] == Lex(s, e);
      StatementsAreSemicolons(s, e);
      StatementStep(s, c);
    }
  }

  lemma StatementStep(s: string, c: nat)
    requires c < |s|
    ensures var (t, e) := TokenAt(s, c);
            |Tracker.Statements(s, c)| == (if t == Plain(';') then 1 else 0) + |Tracker.Statements(s, e)|
  {
    hide Tracker.Statements;
    var (t, e) := TokenAt(s, c);
    EndStep(s, c);
    StatementsFrom(s, c);
    StatementsFrom(s, e);
  }

  /** How many statements there are, by where the first ends. */
  lemma StatementsFrom(s: string, c: nat)
    requires c <= |s|
    ensures var e := Tracker.StatementEnd(s, c);
            |Tracker.Statements(s, c)| == if e == |s| then 1 else 1 + |Tracker.Statements(s, e + 1)|
  {
    hide Tracker.StatementEnd;
  }

  lemma EndStep(s: string, c: nat)
    requires c < |s|
    ensures var (t, e) := TokenAt(s, c);
            if t == Plain(';') then Tracker.StatementEnd(s, c) == c && e == c + 1
            else Tracker.StatementEnd(s, c) == Tracker.StatementEnd(s, e)
  {
    var (t, e) := TokenAt(s, c);
    if t.Name? {
      NameEndsNothing(s, c + 1, e);
    }
  }

  lemma {:induction false} NameEndsNothing(s: string, p: nat, e: nat)
    requires p <= |s| && e == NameEnd(s, p)
    ensures Tracker.StatementEnd(s, p) == Tracker.StatementEnd(s, e)
    decreases |s| - p
  {
    if p < e {
      NameEndsNothing(s, p + 1, e);
    }
  }

  // ---------------------------------------------------------------- a condition on the template

  predicate IsPlaceholder(t: Token) { t.Mark? || t.Name? }

  /** A value whose text can leave a colon after it free: a number ending in a point or a blank. */
  predicate EndsLoose(v: Value) {
    Bare(v) && v.text != "" &&
    var c := v.text[|v.text| - 1];
    c == '.' || Literals.IsBlank(c)
  }

  /** What may stand before a placeholder. */
  predicate SafeBefore(t: Token) {
    !IsPlaceholder(t) && t != Plain(':') && (t.Stretch? ==> FirstChar(t.text) != Some('\''))
  }

  /** What may stand after a placeholder of this value. */
  predicate SafeAfter(t: Token, v: Value) {
    && !IsPlaceholder(t) && FirstChar(TokenText(t)) != Some('\'') && FirstChar(TokenText(t)) != Some('$')
    && (EndsLoose(v) ==> t != Plain(':'))
  }

  function ValueOf(t: Token, position: nat, bindings: Bindings): Value
    requires IsPlaceholder(t)
  {
    Bound(bindings, if t.Mark? then Position(position) else Named(t.name))
  }

  /**
   No placeholder touches a single-quoted string or another placeholder, none directly follows a
   colon, none is directly followed by a dollar sign, and no number ending in a point or a blank is
   directly followed by a colon.
   */
  predicate SafeTemplate(tokens: seq<Token>, position: nat, bindings: Bindings)
    decreases |tokens|
  {
    tokens == [] ||
    ( && (|tokens| > 1 && IsPlaceholder(tokens[1]) ==> SafeBefore(tokens[0]))
      && (|tokens| > 1 && IsPlaceholder(tokens[0]) ==> SafeAfter(tokens[1], ValueOf(tokens[0], position, bindings)))
      && SafeTemplate(tokens[1..], if tokens[0].Mark? then position + 1 else position, bindings))
  }

  /** A token that fits is not disturbed where it stands. */
  lemma FitsUndisturbed(prev: Option<char>, t: Token, next: Option<char>)
    requires Fits(prev, t, next)
    ensures Undisturbed(prev, t, next)
  {
    hide Fits;
    match t {
      case Plain(c) => PlainFits(prev, c, next);
      case Stretch(text) => StretchSwap(prev, prev, text, next, next);
      case _ =>
    }
  }

  /** The token after a value, where its predecessor in the template was a placeholder. */
  predicate AfterValue(tokens: seq<Token>, lt: Option<char>, lo: Option<char>) {
    lt == lo ||
    ( && lo.Some? && ValueEnd(lo.value) && lt.Some? && (lt.value == '?' || InName(lt.value))
      && (tokens != [] ==>
            && FirstChar(TokenText(tokens[0])) != Some('\'') && FirstChar(TokenText(tokens[0])) != Some('$')
            && (tokens[0] == Plain(':') ==> EndsOperand(lo.value))))
  }

  lemma CopiedUndisturbed(t: Token, lt: Option<char>, lo: Option<char>, nt: Option<char>, no: Option<char>)
    requires Fits(lt, t, nt) && !IsPlaceholder(t) && AfterValue([t], lt, lo)
    requires NextSwap(t, nt, no) && (nt != no ==> SafeBefore(t))
    ensures Undisturbed(lo, t, no)
  {
    hide Fits;
    FitsUndisturbed(lt, t, nt);
  }

  lemma ValueTail(v: Value, afterMinus: bool)
    requires Formatted(v) && !EndsLoose(v)
    ensures var l := LastOf(ValueTokens(v, afterMinus)); l.Some? && EndsOperand(l.value)
  {
    hide Literals.IsNumeric, Literals.StringLiteral;
    ValueEnds(v, afterMinus, []);
    match v {
      case Number(text) => NumberTail(text, afterMinus);
      case IntString(text) =>
        if Literals.IsNumeric(text) {
          NumberTail(text, afterMinus);
        } else {
          QuotedFits(None, text, []);
        }
      case Null => PlainEnds("NULL", []);
      case Bool(b) => PlainEnds(if b then "TRUE" else "FALSE", []);
      case Text(text) => QuotedFits(None, text, []);
      case NotANumber => SpecialEnds("NaN", []);
      case Infinite(positive) => SpecialEnds(if positive then "inf" else "-inf", []);
      case Binary(bytes) =>
        var lit := [Literal(Literals.HexPairs(bytes))];
        QuotedFits(None, Literals.HexPairs(bytes), []);
        LiteralText(Literals.HexPairs(bytes));
        FlatConcat([Plain('X')], lit);
        LastOfConcat(Flat([Plain('X')]), Flat(lit));
    }
  }

  lemma NumberTail(text: string, afterMinus: bool)
    requires Literals.IsNumeric(text)
    ensures text != "" && LastOf(Plains(NumberText(text, afterMinus))) == Some(text[|text| - 1])
    ensures ValueEnd(text[|text| - 1])
  {
    NumberEnds(text, afterMinus, []);
    assert text != "" by { assert !Literals.IsNumeric(""); }
    LastOfConcat(" ", text);
  }

  lemma PlaceholderText(prev: Option<char>, t: Token, next: Option<char>)
    requires Fits(prev, t, next) && IsPlaceholder(t)
    ensures var last := LastChar(TokenText(t)); last.Some? && (last.value == '?' || InName(last.value))
  {
    hide Fits;
    if t.Name? {
      NameShape(prev, t.name, next);
    }
  }

  lemma AfterValueHolds(rest: seq<Token>, v: Value, afterMinus: bool, lt: Option<char>)
    requires Formatted(v) && lt.Some? && (lt.value == '?' || InName(lt.value))
    requires rest != [] ==> SafeAfter(rest[0], v)
    ensures AfterValue(rest, lt, LastOf(ValueTokens(v, afterMinus)))
  {
    ValueEnds(v, afterMinus, []);
    if !EndsLoose(v) {
      ValueTail(v, afterMinus);
    }
  }

  /** A placeholder's neighbours are copied ones. */
  lemma FirstKept(rest: seq<Token>, position: nat, bindings: Bindings, last: Option<char>)
    ensures (rest != [] ==> !IsPlaceholder(rest[0])) ==> First(Expected(rest, position, bindings, last)) == First(rest)
  {}

  lemma ValueUndisturbed(prev: Option<char>, v: Value, afterMinus: bool, rest: seq<Token>)
    requires Formatted(v) && First(rest) != Some('\'')
    requires AllUndisturbed(LastOf(ValueTokens(v, afterMinus)), rest)
    ensures AllUndisturbed(prev, ValueTokens(v, afterMinus) + rest)
  {
    hide Literals.IsNumeric, TameText, Undisturbed, AllUndisturbed;
    var vt := ValueTokens(v, afterMinus);
    match v {
      case Null => TameValue(prev, "NULL", rest);
      case Bool(b) => TameValue(prev, if b then "TRUE" else "FALSE", rest);
      case Number(text) =>
        NumberIsTame(text, afterMinus);
        TamePlains(prev, NumberText(text, afterMinus), rest);
      case IntString(text) =>
        if Literals.IsNumeric(text) {
          NumberIsTame(text, afterMinus);
          TamePlains(prev, NumberText(text, afterMinus), rest);
        } else {
          QuotedFits(prev, text, rest);
        }
      case Text(text) => QuotedFits(prev, text, rest);
      case NotANumber => SpecialFits(prev, "NaN", rest);
      case Infinite(positive) => SpecialFits(prev, if positive then "inf" else "-inf", rest);
      case Binary(bytes) =>
        var lit := [Literal(Literals.HexPairs(bytes))];
        QuotedFits(Some('X'), Literals.HexPairs(bytes), rest);
        KeywordIsTame("X");
        TameFits(prev, "X", lit + rest);
        assert Plains("X") == [Plain('X')];
        assert vt + rest == [Plain('X')] + (lit + rest);
        FlatConcat([Plain('X')], lit);
        LiteralText(Literals.HexPairs(bytes));
        LastOfConcat(Flat([Plain('X')]), Flat(lit));
    }
  }

  lemma BoundIsFormatted(bindings: Bindings, key: Key)
    requires AllFormatted(bindings)
    ensures Formatted(Bound(bindings, key))
  {}

  lemma {:induction false} SafeIsUndisturbed(tokens: seq<Token>, position: nat, bindings: Bindings,
                                            lt: Option<char>, lo: Option<char>)
    requires AllFormatted(bindings) && Solid(tokens) && AllFit(lt, tokens) && AfterValue(tokens, lt, lo)
    requires SafeTemplate(tokens, position, bindings)
    ensures AllUndisturbed(lo, Expected(tokens, position, bindings, lo))
    decreases |tokens|
  {
    hide Fits, ValueTokens, Undisturbed, NextSwap, AllFormatted, TokenText, EndsLoose, ValueEnd, EndsOperand;
    if tokens != [] {
      var t, rest := tokens[0], tokens[1..];
      assert t in tokens;
      if IsPlaceholder(t) {
        var v := ValueOf(t, position, bindings);
        BoundIsFormatted(bindings, if t.Mark? then Position(position) else Named(t.name));
        var vt := ValueTokens(v, lo == Some('-'));
        var next := if t.Mark? then position + 1 else position;
        var last := LastChar(TokenText(t));
        var more := Expected(rest, next, bindings, LastOf(vt));
        PlaceholderText(lt, t, First(rest));
        AfterValueHolds(rest, v, lo == Some('-'), last);
        SafeIsUndisturbed(rest, next, bindings, last, LastOf(vt));
        FirstKept(rest, next, bindings, LastOf(vt));
        ValueUndisturbed(lo, v, lo == Some('-'), more);
      } else {
        var last := LastChar(TokenText(t));
        var more := Expected(rest, position, bindings, last);
        assert ([t] + more)[1..] == more;
        FirstExpected(rest, position, bindings, last, t, last);
        FirstKept(rest, position, bindings, last);
        CopiedUndisturbed(t, lt, lo, First(rest), First(more));
        SafeIsUndisturbed(rest, position, bindings, last, last);
      }
    }
  }

  /** A condition the template's author can see: it makes every rendering lex as expected. */
  lemma {:induction false} SafeTemplatesKeepTheirLexing(s: string, bindings: Bindings, out: string)
    requires bindings != map[] && AllFormatted(bindings) && RenderStatement(s, bindings) == Rendered(out)
    requires SafeTemplate(Lex(s, 0), 0, bindings)
    ensures Lex(out, 0) == Rescanned(s, bindings)
  {
    hide Fill, Lex, Flat, Expected, AllUndisturbed, AllFit, SafeTemplate;
    FlatOfLex(s, 0);
    LexedFits(s);
    SafeIsUndisturbed(Lex(s, 0), 0, bindings, None, None);
    RescanExact(s, bindings, out);
  }

  /**
   The colon clause cannot be dropped: bound to a null, the positional placeholder of `:?` becomes
   part of a named one.
   */
  lemma ColonTakesTheValue(s: string, bindings: Bindings)
    requires s == ":?" && bindings == map[Position(0) := Null]
    ensures Lex(s, 0) == [Plain(':'), Mark]
    ensures RenderStatement(s, bindings) == Rendered(":NULL")
    ensures Rescanned(s, bindings) == [Plain(':')] + Plains("NULL")
    ensures Lex(":NULL", 0) != Rescanned(s, bindings)
  {
    assert Lex(s, 0) == [Plain(':')] + Lex(s, 1) && Lex(s, 1) == [Mark] + Lex(s, 2);
    var tokens := [Plain(':'), Mark];
    assert Lex(s, 0) == tokens && tokens[1..] == [Mark] && [Mark][1..] == [];
    var e := Rescanned(s, bindings);
    assert e == [Plain(':')] + (Plains("NULL") + []);
    assert Plains("NULL") + [] == Plains("NULL");
    ColonRendered(tokens, bindings);
    assert e[1..] == Plains("NULL");
    assert !Undisturbed(None, e[0], First(e[1..]));
    RescanExact(s, bindings, ":NULL");
  }

  lemma ColonRendered(tokens: seq<Token>, bindings: Bindings)
    requires tokens == [Plain(':'), Mark] && bindings == map[Position(0) := Null]
    ensures var r := Fill(tokens, NOT_STARTED, bindings);
            r.Filled? && Checked(r.progress, bindings) == Rendered(":NULL")
  {
    assert tokens[1..] == [Mark] && [Mark][1..] == [];
    var p := NOT_STARTED.(out := ":");
    assert "" + [':'] == ":" && ":" + "NULL" == ":NULL";
    assert Fill(tokens, NOT_STARTED, bindings) == Fill([Mark], p, bindings);
    assert Fill([Mark], p, bindings) == Filled(Progress(":NULL", 1, true, false, {}));
    assert |bindings| == 1;
  }
}
