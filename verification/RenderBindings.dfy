/** Which bindings a template accepts: exactly those that match its placeholders. */
module RenderBindings {
  import opened Render

  function Marks(tokens: seq<Token>): nat
    decreases |tokens|
  {
    if tokens == [] then 0 else (if tokens[0].Mark? then 1 else 0) + Marks(tokens[1..])
  }

  function Names(tokens: seq<Token>): set<string>
    decreases |tokens|
  {
    if tokens == [] then {} else (if tokens[0].Name? then {tokens[0].name} else {}) + Names(tokens[1..])
  }

  predicate Convertible(bindings: Bindings) {
    forall k :: k in bindings ==> !bindings[k].Unreadable?
  }

  /** Every lookup the walk makes from position `from` on finds something. */
  predicate AllFound(tokens: seq<Token>, from: nat, bindings: Bindings) {
    && (forall i :: from <= i < from + Marks(tokens) ==> Position(i) in bindings)
    && (forall name :: name in Names(tokens) ==> Named(name) in bindings)
  }

  lemma {:induction false} FillSucceeds(tokens: seq<Token>, p: Progress, bindings: Bindings)
    requires Convertible(bindings)
    ensures var r := Fill(tokens, p, bindings);
            && (r.Filled? <==> AllFound(tokens, p.position, bindings))
            && (r.Filled? ==>
                  && r.progress.position == p.position + Marks(tokens)
                  && r.progress.used == p.used + Names(tokens)
                  && r.progress.positional == (p.positional || Marks(tokens) > 0)
                  && r.progress.named == (p.named || Names(tokens) != {}))
    decreases |tokens|
  {
    hide ValueText, AfterMinus;
    if tokens == [] {
      assert p.used + {} == p.used;
    } else {
      var rest := tokens[1..];
      match tokens[0] {
        case Stretch(text) => FillSucceeds(rest, p.(out := p.out + text), bindings);
        case Plain(c) => FillSucceeds(rest, p.(out := p.out + [c]), bindings);
        case Mark =>
          if Position(p.position) in bindings {
            FillSucceeds(rest,
                         p.(out := p.out + ValueText(bindings[Position(p.position)], AfterMinus(p.out)),
                            position := p.position + 1, positional := true), bindings);
          }
        case Name(name) =>
          assert name in Names(tokens);
          if Named(name) in bindings {
            FillSucceeds(rest,
                         p.(out := p.out + ValueText(bindings[Named(name)], AfterMinus(p.out)),
                            named := true, used := p.used + {name}), bindings);
            assert (p.used + {name}) + Names(rest) == p.used + Names(tokens);
          }
      }
    }
  }

  function Positions(n: nat): (r: set<Key>)
    ensures forall i: nat :: Position(i) in r <==> i < n
    ensures forall k :: k in r ==> k.Position?
  {
    if n == 0 then {} else Positions(n - 1) + {Position(n - 1)}
  }

  function NamedKeys(names: set<string>): set<Key> { set name | name in names :: Named(name) }

  lemma {:induction false} PositionsSize(n: nat)
    ensures |Positions(n)| == n
  {
    if n > 0 {
      PositionsSize(n - 1);
    }
  }

  lemma {:induction false} NamedKeysSize(names: set<string>)
    ensures |NamedKeys(names)| == |names|
    decreases |names|
  {
    if names != {} {
      var name :| name in names;
      NamedKeysSize(names - {name});
      assert NamedKeys(names) == NamedKeys(names - {name}) + {Named(name)};
    }
  }

  /** A subset with as many elements is the whole set. */
  lemma {:induction false} FullSubset(a: set<Key>, b: set<Key>)
    requires a <= b && |a| == |b|
    ensures a == b
    decreases |b|
  {
    if b != {} {
      if x :| x in b && x !in a {
        SmallerSubset(a, b - {x});
      }
    }
  }

  lemma {:induction false} SmallerSubset(a: set<Key>, b: set<Key>)
    requires a <= b
    ensures |a| <= |b|
    decreases |a|
  {
    if a != {} {
      var x :| x in a;
      SmallerSubset(a - {x}, b - {x});
    }
  }

  /** Only positional placeholders, and the bound keys are their positions. */
  predicate MatchesPositions(tokens: seq<Token>, bindings: Bindings) {
    Names(tokens) == {} && bindings.Keys == Positions(Marks(tokens))
  }

  /** Only named placeholders, and the bound keys are the names used. */
  predicate MatchesNames(tokens: seq<Token>, bindings: Bindings) {
    Marks(tokens) == 0 && bindings.Keys == NamedKeys(Names(tokens))
  }

  lemma KeysSize(bindings: Bindings)
    ensures |bindings.Keys| == |bindings|
  {}

  /**
   Rendering accepts exactly the bindings that match. The source looks each placeholder up and then
   compares one count; together that is equality of the key sets.
   */
  lemma RenderAccepts(s: string, bindings: Bindings)
    requires bindings != map[] && Convertible(bindings) && |bindings| < UINT32
    ensures RenderStatement(s, bindings).Rendered?
            <==> MatchesPositions(Lex(s, 0), bindings) || MatchesNames(Lex(s, 0), bindings)
  {
    hide Fill, Marks, Names, Lex, Convertible, AllFound, MatchesPositions, MatchesNames;
    var tokens := Lex(s, 0);
    FillSucceeds(tokens, NOT_STARTED, bindings);
    if MatchesPositions(tokens, bindings) || MatchesNames(tokens, bindings) {
      MatchesAreFound(tokens, bindings);
    }
    if AllFound(tokens, 0, bindings) {
      FoundMatches(tokens, bindings);
    }
  }

  /** With everything found, one count decides. */
  lemma FoundMatches(tokens: seq<Token>, bindings: Bindings)
    requires AllFound(tokens, 0, bindings)
    ensures MatchesPositions(tokens, bindings) <==> Names(tokens) == {} && Marks(tokens) == |bindings|
    ensures MatchesNames(tokens, bindings) <==> Marks(tokens) == 0 && |Names(tokens)| == |bindings|
    ensures Marks(tokens) <= |bindings| && |Names(tokens)| <= |bindings|
  {
    hide Marks, Names;
    var n, names := Marks(tokens), Names(tokens);
    PositionsSize(n);
    NamedKeysSize(names);
    KeysSize(bindings);
    assert Positions(n) <= bindings.Keys;
    assert NamedKeys(names) <= bindings.Keys;
    SmallerSubset(Positions(n), bindings.Keys);
    SmallerSubset(NamedKeys(names), bindings.Keys);
    if n == |bindings| {
      FullSubset(Positions(n), bindings.Keys);
    }
    if |names| == |bindings| {
      FullSubset(NamedKeys(names), bindings.Keys);
    }
  }

  lemma MatchesAreFound(tokens: seq<Token>, bindings: Bindings)
    requires MatchesPositions(tokens, bindings) || MatchesNames(tokens, bindings)
    ensures AllFound(tokens, 0, bindings)
  {
    hide Marks, Names;
    if MatchesNames(tokens, bindings) {
      assert forall name :: name in Names(tokens) ==> Named(name) in NamedKeys(Names(tokens));
    }
  }

  // ---------------------------------------------------------------- why a rendering is refused

  /** With everything found, using both styles is the first thing wrong. */
  lemma MixedStylesRefused(s: string, bindings: Bindings)
    requires bindings != map[] && Convertible(bindings) && AllFound(Lex(s, 0), 0, bindings)
    ensures RenderStatement(s, bindings) == Refused(MixedStyles)
            <==> Marks(Lex(s, 0)) > 0 && Names(Lex(s, 0)) != {}
  {
    hide Fill, Marks, Names, Lex, Convertible, AllFound;
    FillSucceeds(Lex(s, 0), NOT_STARTED, bindings);
  }

  lemma {:induction false} FillConcat(xs: seq<Token>, ys: seq<Token>, p: Progress, bindings: Bindings)
    ensures Fill(xs + ys, p, bindings) == match Fill(xs, p, bindings)
                                          case Filled(q) => Fill(ys, q, bindings)
                                          case Stopped(why) => Stopped(why)
    decreases |xs|
  {
    hide ValueText, AfterMinus;
    if xs == [] {
      assert xs + ys == ys;
    } else {
      assert (xs + ys)[1..] == xs[1..] + ys;
      match xs[0] {
        case Stretch(text) => FillConcat(xs[1..], ys, p.(out := p.out + text), bindings);
        case Plain(c) => FillConcat(xs[1..], ys, p.(out := p.out + [c]), bindings);
        case Mark =>
          if Position(p.position) in bindings && !bindings[Position(p.position)].Unreadable? {
            FillConcat(xs[1..], ys,
                       p.(out := p.out + ValueText(bindings[Position(p.position)], AfterMinus(p.out)),
                          position := p.position + 1, positional := true), bindings);
          }
        case Name(name) =>
          if Named(name) in bindings && !bindings[Named(name)].Unreadable? {
            FillConcat(xs[1..], ys,
                       p.(out := p.out + ValueText(bindings[Named(name)], AfterMinus(p.out)),
                          named := true, used := p.used + {name}), bindings);
          }
      }
    }
  }

  /** The first placeholder nothing is bound to is what the refusal is about. */
  lemma FirstMissingRefused(s: string, bindings: Bindings, before: seq<Token>, t: Token, after: seq<Token>)
    requires bindings != map[] && Convertible(bindings) && Lex(s, 0) == before + ([t] + after)
    requires AllFound(before, 0, bindings)
    requires (t.Mark? && Position(Marks(before)) !in bindings) || (t.Name? && Named(t.name) !in bindings)
    ensures RenderStatement(s, bindings) == Refused(if t.Mark? then CountMismatch else NotDefined(t.name))
  {
    hide Marks, Names, Lex, Convertible, AllFound;
    FillSucceeds(before, NOT_STARTED, bindings);
    FillConcat(before, [t] + after, NOT_STARTED, bindings);
    assert ([t] + after)[0] == t;
  }
}
