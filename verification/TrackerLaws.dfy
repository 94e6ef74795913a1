/**
 Laws of the tracker over whole requests: it is a fold over concatenation, and the outcome does
 not depend on letter case or on the blanks and comments around leading words.
 */
module TrackerLaws {
  import opened CText
  import opened Scanner
  import opened ScannerProofs
  import opened Tracker

  lemma {:induction false} FoldConcat(flags: Flags, autoCommit: bool, xs: seq<string>, ys: seq<string>)
    ensures Fold(flags, autoCommit, xs + ys) == Fold(Fold(flags, autoCommit, xs), autoCommit, ys)
    decreases |xs|
  {
    if xs == [] {
      assert xs + ys == ys;
    } else {
      assert (xs + ys)[1..] == xs[1..] + ys;
      FoldConcat(StatementEffect(flags, autoCommit, xs[0]), autoCommit, xs[1..], ys);
    }
  }

  // ---------------------------------------------------------------- moving a request's tail

  lemma {:induction false} StatementEndMoves(s: string, c: nat, t: string, d: nat, m: nat)
    requires Same(s, c, t, d, m) && c + m == |s| && d + m == |t|
    requires FreeBefore(s, c) == FreeBefore(t, d)
    ensures StatementEnd(t, d) == StatementEnd(s, c) - c + d
    decreases m
  {
    if m > 0 {
      NextMoves(s, c, t, d, m);
      var k := Next(s, c) - c;
      SameDrop(s, c, t, d, m, k);
      StatementEndMoves(s, c + k, t, d + k, m - k);
    }
  }

  /** The statements of a text's tail depend on that tail only. */
  lemma {:induction false} StatementsMove(s: string, c: nat, t: string, d: nat, m: nat)
    requires Same(s, c, t, d, m) && c + m == |s| && d + m == |t|
    requires FreeBefore(s, c) == FreeBefore(t, d)
    ensures Statements(s, c) == Statements(t, d)
    decreases m
  {
    hide Same, FreeBefore, Skip, StatementEnd;
    var k := StatementEnd(s, c) - c;
    assert StatementEnd(t, d) == d + k by {
      StatementEndMoves(s, c, t, d, m);
    }
    assert s[c..c + k] == t[d..d + k] by {
      SameSlice(s, c, t, d, m, k);
    }
    if k < m {
      SameDrop(s, c, t, d, m, k + 1);
      StatementsMove(s, c + k + 1, t, d + k + 1, m - k - 1);
    }
  }

  // ---------------------------------------------------------------- concatenation

  /** Of the texts `a`, `s` being `a;` and `x` being `a;b`, the last `n` characters of `a` agree. */
  predicate Aligned(a: string, s: string, x: string, c: nat) {
    && c <= |a| && |s| == |a| + 1 && s[|a|] == ';' && |s| <= |x|
    && Same(s, c, a, c, |a| - c) && Same(s, c, x, c, |s| - c)
    && FreeBefore(s, c) == FreeBefore(a, c) == FreeBefore(x, c)
  }

  lemma AlignedDrop(a: string, s: string, x: string, c: nat, k: nat)
    requires Aligned(a, s, x, c) && 0 < k <= |a| - c
    ensures Aligned(a, s, x, c + k)
  {
    SameDrop(s, c, a, c, |a| - c, k);
    SameDrop(s, c, x, c, |s| - c, k);
  }

  lemma SemicolonIsPlain(x: string, c: nat)
    requires c < |x| && x[c] == ';'
    ensures Skip(x, c) == c
  {}

  /** In a closed text the semicolon after it, and what follows, change no statement end before it. */
  lemma {:induction false} EndBeforeSemicolon(a: string, s: string, x: string, c: nat)
    requires Aligned(a, s, x, c) && Reaches(s, c, |a|)
    ensures StatementEnd(x, c) == StatementEnd(a, c)
    ensures var e := StatementEnd(a, c); e < |a| ==> Reaches(s, e + 1, |a|)
    decreases |a| - c
  {
    hide FreeBefore, Skip;
    if c < |a| {
      NextMoves(s, c, a, c, |a| - c);
      NextMoves(s, c, x, c, |s| - c);
      if Skip(s, c) > c || s[c] != ';' {
        AlignedDrop(a, s, x, c, Next(s, c) - c);
        EndBeforeSemicolon(a, s, x, Next(s, c));
      }
    } else {
      SemicolonIsPlain(x, c);
    }
  }

  lemma StatementsStep(s: string, start: nat)
    requires start <= |s|
    ensures var e := StatementEnd(s, start);
            Statements(s, start) == [s[start..e]] + if e == |s| then [] else Statements(s, e + 1)
  {
    hide StatementEnd;
    assert [s[start..StatementEnd(s, start)]] + [] == [s[start..StatementEnd(s, start)]];
  }

  lemma {:induction false} StatementsBefore(a: string, s: string, x: string, start: nat)
    requires Aligned(a, s, x, start) && Reaches(s, start, |a|)
    ensures Statements(x, start) == Statements(a, start) + Statements(x, |a| + 1)
    decreases |a| - start
  {
    hide Same, FreeBefore, Skip, StatementEnd, Statements, Reaches;
    var e := StatementEnd(a, start);
    StatementsStep(a, start);
    StatementsStep(x, start);
    assert StatementEnd(x, start) == e && (e < |a| ==> Reaches(s, e + 1, |a|)) by {
      EndBeforeSemicolon(a, s, x, start);
    }
    assert x[start..e] == a[start..e] by {
      SameSlice(s, start, a, start, |a| - start, e - start);
      SameSlice(s, start, x, start, |s| - start, e - start);
    }
    if e < |a| {
      assert Statements(x, e + 1) == Statements(a, e + 1) + Statements(x, |a| + 1) by {
        AlignedDrop(a, s, x, start, e + 1 - start);
        StatementsBefore(a, s, x, e + 1);
      }
    } else {
      assert [a[start..e]] + [] == [a[start..e]];
    }
  }

  lemma StatementsConcat(a: string, b: string)
    requires Closed(a)
    ensures Statements(a + ";" + b, 0) == Statements(a, 0) + Statements(b, 0)
  {
    var s, x := a + ";", a + ";" + b;
    SameIfEqual(s, 0, a, 0, |a|);
    SameIfEqual(s, 0, x, 0, |s|);
    StatementsBefore(a, s, x, 0);
    SameIfEqual(x, |s|, b, 0, |b|);
    StatementsMove(x, |s|, b, 0, |b|);
  }

  /** Tracking `a;b`, with `a` lexically closed, is tracking `a` and then `b`. */
  lemma {:induction false} TrackConcat(flags: Flags, autoCommit: bool, a: string, b: string, both: string)
    requires Closed(a) && both == a + ";" + b
    ensures Track(flags, autoCommit, both) == Track(Track(flags, autoCommit, a), autoCommit, b)
  {
    StatementsConcat(a, b);
    FoldConcat(flags, autoCommit, Statements(a, 0), Statements(b, 0));
  }

  /** A text that is not closed swallows the semicolon: `--` hides the USE after it. */
  lemma OpenTextSwallows(a: string, b: string)
    requires a == "--" && b == "A"
    ensures !Closed(a)
    ensures Track(NOTHING_HELD, true, a + ";" + ("USE " + b)) == NOTHING_HELD
    ensures Track(Track(NOTHING_HELD, true, a), true, "USE " + b).dirty
  {
    LineCommentIsOpen(a);
    CommentTracksNothing(a + ";" + ("USE " + b));
    UseTouches(Track(NOTHING_HELD, true, a), true, b);
  }

  lemma LineCommentIsOpen(a: string)
    requires OpensLine(a, 0) && NoNewlines(a)
    ensures !Closed(a)
  {
    var s := a + ";";
    assert OpensLine(s, 0);
    NoNewline(s, 2);
    assert Skip(s, 0) == |s|;
    assert !Reaches(s, |s|, |a|);
  }

  predicate NoNewlines(s: string) { forall k :: 0 <= k < |s| ==> s[k] != '\n' }

  /** A request that is one line comment to its end leaves the flags alone. */
  lemma CommentTracksNothing(s: string)
    requires OpensLine(s, 0) && NoNewlines(s)
    ensures Track(NOTHING_HELD, true, s) == NOTHING_HELD
  {
    NoNewline(s, 2);
    assert StatementEnd(s, 0) == |s|;
    var only := s[0..|s|];
    assert only == s && Statements(s, 0) == [only];
    assert Words(s, 0) == [];
    assert Kept([]) == [];
    assert Fold(NOTHING_HELD, true, [s]) == Fold(StatementEffect(NOTHING_HELD, true, s), true, []);
  }

  lemma {:induction false} NoNewline(s: string, p: nat)
    requires p <= |s| && forall k :: p <= k < |s| ==> s[k] != '\n'
    ensures LineEnd(s, p) == |s|
    decreases |s| - p
  {
    if p < |s| {
      NoNewline(s, p + 1);
    }
  }

  /** A USE statement always marks the session, whatever it names. */
  lemma UseTouches(flags: Flags, autoCommit: bool, name: string)
    ensures Track(flags, autoCommit, "USE " + name).dirty
  {
    var s := "USE " + name;
    assert s[0] == 'U' && s[1] == 'S' && s[2] == 'E' && s[3] == ' ';
    assert Skip(s, 0) == 0 && Skip(s, 1) == 1 && Skip(s, 2) == 2 && Skip(s, 3) == 3;
    assert StatementEnd(s, 0) == StatementEnd(s, 1) == StatementEnd(s, 2) == StatementEnd(s, 3) == StatementEnd(s, 4);
    var first := Statements(s, 0)[0];
    assert first[0] == 'U' && first[1] == 'S' && first[2] == 'E' && first[3] == ' ' && |first| >= 4;
    assert WordEnd(first, 0) == WordEnd(first, 1) == WordEnd(first, 2) == WordEnd(first, 3) == 3;
    assert Words(first, 0)[0] == Upper(first[0..3]);
    assert Upper(first[0..3]) == "USE";
    DirtyStays(StatementEffect(flags, autoCommit, first), autoCommit, Statements(s, 0)[1..]);
  }

  lemma {:induction false} DirtyStays(flags: Flags, autoCommit: bool, statements: seq<string>)
    ensures flags.dirty ==> Fold(flags, autoCommit, statements).dirty
    decreases |statements|
  {
    if statements != [] {
      DirtyStays(StatementEffect(flags, autoCommit, statements[0]), autoCommit, statements[1..]);
    }
  }

  /** A character that opens no stretch and ends no statement where it stands. */
  predicate Quiet(s: string, i: nat)
    requires i < |s|
  {
    IsAlnum(s[i]) || s[i] == '_' || s[i] == ' ' || (s[i] == '$' && i > 0 && JoinsDollar(s[i - 1]))
  }

  lemma {:induction false} QuietRun(s: string, c: nat, end: nat)
    requires c <= end <= |s| && forall i :: c <= i < end ==> Quiet(s, i)
    ensures StatementEnd(s, c) == StatementEnd(s, end)
    decreases end - c
  {
    if c < end {
      assert Quiet(s, c);
      QuietRun(s, c + 1, end);
    }
  }

  // ---------------------------------------------------------------- letter case

  predicate SameButCase(s: string, t: string) {
    |s| == |t| && forall i :: 0 <= i < |s| ==> ToUpper(s[i]) == ToUpper(t[i])
  }

  lemma {:induction false} EndsIgnoreCase(s: string, t: string, p: nat)
    requires SameButCase(s, t) && p <= |s|
    ensures QuoteEnd(s, p) == QuoteEnd(t, p)
    ensures IdentEnd(s, p) == IdentEnd(t, p)
    ensures LineEnd(s, p) == LineEnd(t, p)
    decreases |s| - p
  {
    if p < |s| {
      EndsIgnoreCase(s, t, p + 1);
      if p + 1 < |s| {
        EndsIgnoreCase(s, t, p + 2);
      }
    }
  }

  lemma {:induction false} PairEndIgnoresCase(s: string, t: string, p: nat, a: char, b: char)
    requires SameButCase(s, t) && p <= |s| && !IsAlpha(a) && !IsAlpha(b)
    ensures PairEnd(s, p, a, b) == PairEnd(t, p, a, b)
    decreases |s| - p
  {
    if p + 1 < |s| {
      assert ToUpper(s[p]) == ToUpper(t[p]) && ToUpper(s[p + 1]) == ToUpper(t[p + 1]);
      PairEndIgnoresCase(s, t, p + 1, a, b);
    }
  }

  /** The same character, or the same letter in another case. */
  lemma SameLetter(s: string, t: string, c: nat)
    requires SameButCase(s, t) && c < |s|
    ensures s[c] == t[c] || (IsAlpha(s[c]) && IsAlpha(t[c]))
  {
    assert ToUpper(s[c]) == ToUpper(t[c]);
  }

  lemma OpensIgnoreCase(s: string, t: string, c: nat)
    requires SameButCase(s, t) && c < |s|
    ensures OpensLine(s, c) == OpensLine(t, c)
    ensures OpensBlock(s, c) == OpensBlock(t, c)
    ensures OpensBody(s, c) == OpensBody(t, c)
  {
    SameLetter(s, t, c);
    if c + 1 < |s| {
      SameLetter(s, t, c + 1);
    }
    if c > 0 {
      SameLetter(s, t, c - 1);
    }
  }

  lemma StepsIgnoreCase(s: string, t: string, c: nat)
    requires SameButCase(s, t) && c < |s|
    ensures Skip(s, c) == Skip(t, c)
    ensures GapNext(s, c) == GapNext(t, c)
    ensures IsWordByte(s[c]) == IsWordByte(t[c]) && (s[c] == ';') == (t[c] == ';')
  {
    SameLetter(s, t, c);
    OpensIgnoreCase(s, t, c);
    EndsIgnoreCase(s, t, c + 1);
    if c + 1 < |s| {
      EndsIgnoreCase(s, t, c + 2);
      PairEndIgnoresCase(s, t, c + 2, '*', '/');
      PairEndIgnoresCase(s, t, c + 2, '$', '$');
    }
  }

  lemma {:induction false} WordEndIgnoresCase(s: string, t: string, c: nat)
    requires SameButCase(s, t) && c <= |s|
    ensures WordEnd(s, c) == WordEnd(t, c)
    decreases |s| - c
  {
    if c < |s| {
      StepsIgnoreCase(s, t, c);
      WordEndIgnoresCase(s, t, c + 1);
    }
  }

  lemma {:induction false} WordsIgnoreCase(s: string, t: string, c: nat)
    requires SameButCase(s, t) && c <= |s|
    ensures Words(s, c) == Words(t, c)
    decreases |s| - c
  {
    if c < |s| {
      StepsIgnoreCase(s, t, c);
      if GapNext(s, c) > c {
        WordsIgnoreCase(s, t, GapNext(s, c));
      } else if IsWordByte(s[c]) {
        WordEndIgnoresCase(s, t, c);
        var e := WordEnd(s, c);
        assert Upper(s[c..e]) == Upper(t[c..e]);
        WordsIgnoreCase(s, t, e);
      }
    }
  }

  lemma {:induction false} StatementEndIgnoresCase(s: string, t: string, c: nat)
    requires SameButCase(s, t) && c <= |s|
    ensures StatementEnd(s, c) == StatementEnd(t, c)
    decreases |s| - c
  {
    if c < |s| {
      StepsIgnoreCase(s, t, c);
      StatementEndIgnoresCase(s, t, Next(s, c));
    }
  }

  lemma {:induction false} FoldIgnoresCase(flags: Flags, autoCommit: bool, s: string, t: string, c: nat)
    requires SameButCase(s, t) && c <= |s|
    ensures Fold(flags, autoCommit, Statements(s, c)) == Fold(flags, autoCommit, Statements(t, c))
    decreases |s| - c
  {
    hide Effect, Words, StatementEnd, Kept;
    StatementEndIgnoresCase(s, t, c);
    var e := StatementEnd(s, c);
    WordsIgnoreCase(s[c..e], t[c..e], 0);
    var next := StatementEffect(flags, autoCommit, s[c..e]);
    if e < |s| {
      assert Statements(s, c)[1..] == Statements(s, e + 1);
      assert Statements(t, c)[1..] == Statements(t, e + 1);
      FoldIgnoresCase(next, autoCommit, s, t, e + 1);
    }
  }

  /** Requests that differ in ASCII letter case only are tracked alike. */
  lemma TrackIgnoresCase(flags: Flags, autoCommit: bool, s: string, t: string)
    requires SameButCase(s, t)
    ensures Track(flags, autoCommit, s) == Track(flags, autoCommit, t)
  {
    FoldIgnoresCase(flags, autoCommit, s, t, 0);
  }
}
