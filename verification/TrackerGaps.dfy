/**
 Blanks and comments around leading words do not matter: two requests that differ only in a
 closed gap before a leading word, or between two of them, are tracked alike.
 */
module TrackerGaps {
  import opened CText
  import opened Scanner
  import opened ScannerProofs
  import opened Tracker
  import TrackerLaws

  /** Walking over blanks and comments alone from `c` arrives at `target`. */
  predicate GapReaches(s: string, c: nat, target: nat)
    requires c <= |s| && target <= |s|
    decreases |s| - c
  {
    c == target || (c < target && GapNext(s, c) > c && GapReaches(s, GapNext(s, c), target))
  }

  /** Blanks and comments, the last comment closed. */
  predicate ClosedGap(g: string) { GapReaches(g + ";", 0, |g|) }

  /** Past the blank, comment or word at `c`. */
  function WordStep(s: string, c: nat): (r: nat)
    requires c < |s|
    ensures c <= r <= |s|
  {
    if GapNext(s, c) > c then GapNext(s, c) else WordEnd(s, c)
  }

  predicate WordReaches(s: string, c: nat, target: nat)
    requires c <= |s| && target <= |s|
    decreases |s| - c
  {
    c == target || (c < target && WordStep(s, c) > c && WordReaches(s, WordStep(s, c), target))
  }

  /**
   `a` is empty, or consists of leading words of a first statement with blanks and comments between
   them, ends with a word, and ends outside any comment or `$$` body.
   */
  predicate LeadingPart(a: string) {
    a == "" ||
    ( var s := a + " ";
      && IsWordByte(a[|a| - 1])
      && WordReaches(s, 0, |a|) && Reaches(s, 0, |a|) && StatementEnd(s, 0) >= |a|)
  }

  predicate GapStart(c: char) { IsSpace(c) || c == '-' || c == '/' }

  // ---------------------------------------------------------------- gaps

  lemma GapNextMoves(s: string, c: nat, t: string, d: nat, m: nat)
    requires m > 0 && Same(s, c, t, d, m)
    requires c < GapNext(s, c) <= c + m && GapNext(s, c) < |s|
    ensures GapNext(t, d) == GapNext(s, c) - c + d
  {
    if IsSpace(s[c]) {
    } else if OpensLine(s, c) {
      LineEndMoves(s, c + 2, t, d + 2, m - 2);
    } else {
      PairEndMoves(s, c + 2, t, d + 2, m - 2, '*', '/');
    }
  }

  /** Between leading words, the scanner steps over a blank or comment as the word reader does. */
  lemma GapScans(s: string, c: nat)
    requires c < |s| && GapNext(s, c) > c
    ensures Next(s, c) == GapNext(s, c) && s[c] != ';'
  {}

  lemma {:induction false} GapLast(s: string, c: nat, target: nat)
    requires c < target < |s| && GapReaches(s, c, target)
    ensures GapStart(s[c]) && !JoinsDollar(s[target - 1])
    decreases target - c
  {
    var e := GapNext(s, c);
    if e < target {
      GapLast(s, e, target);
    } else if !IsSpace(s[c]) {
      if OpensLine(s, c) {
        LineLast(s, c + 2);
      } else {
        PairLast(s, c + 2, '*', '/');
      }
    }
  }

  /** A gap adds no words and ends no statement. */
  lemma {:induction false} GapIsSkipped(s: string, c: nat, target: nat, t: string, d: nat)
    requires c <= target < |s| && GapReaches(s, c, target)
    requires Same(s, c, t, d, target - c)
    ensures StatementEnd(t, d) == StatementEnd(t, d + target - c)
    ensures Words(t, d) == Words(t, d + target - c)
    decreases target - c
  {
    hide Skip, OpensLine, OpensBlock, IsSpace;
    if c < target {
      var k := GapNext(s, c) - c;
      assert k <= target - c;
      GapNextMoves(s, c, t, d, target - c);
      GapScans(t, d);
      SameTail(s, c, t, d, target - c, k);
      GapIsSkipped(s, c + k, target, t, d + k);
    }
  }

  // ---------------------------------------------------------------- leading words before a gap

  lemma {:induction false} WordEndMoves(s: string, c: nat, t: string, d: nat, m: nat)
    requires Same(s, c, t, d, m) && WordEnd(s, c) <= c + m
    requires WordEnd(s, c) < c + m || d + m == |t| || !IsWordByte(t[d + m])
    ensures WordEnd(t, d) == WordEnd(s, c) - c + d
    decreases m
  {
    if m > 0 && IsWordByte(s[c]) {
      WordEndMoves(s, c + 1, t, d + 1, m - 1);
    }
  }

  /** The words read on the way to `target`. */
  function WordsTo(s: string, c: nat, target: nat): seq<string>
    requires c <= |s| && target <= |s| && WordReaches(s, c, target)
    decreases |s| - c
  {
    if c == target then []
    else if GapNext(s, c) > c then WordsTo(s, GapNext(s, c), target)
    else [Upper(s[c..WordEnd(s, c)])] + WordsTo(s, WordEnd(s, c), target)
  }

  lemma {:induction false} WordsBeforeGap(a: string, s: string, w: string, c: nat)
    requires s == a + " " && c <= |a| < |w| && a != "" && IsWordByte(a[|a| - 1])
    requires WordReaches(s, c, |a|) && Same(s, c, w, c, |a| - c) && GapStart(w[|a|])
    ensures Words(w, c) == WordsTo(s, c, |a|) + Words(w, |a|)
    decreases |a| - c
  {
    hide FreeBefore, OpensLine, OpensBlock, LineEnd, PairEnd, IsSpace, IsAlnum;
    GapIsNoWord(w[|a|]);
    if c < |a| {
      var m := |a| - c;
      var e := WordStep(s, c);
      if GapNext(s, c) > c {
        if e == |a| {
          assert GapReaches(s, c, |a|);
          GapEndsOutsideWord(s, c);
        }
        GapNextMoves(s, c, w, c, m);
        SameTail(s, c, w, c, m, e - c);
        WordsBeforeGap(a, s, w, e);
      } else {
        NoGapMoves(s, c, w, m);
        WordEndMoves(s, c, w, c, m);
        SameSlice(s, c, w, c, m, e - c);
        SameTail(s, c, w, c, m, e - c);
        WordsBeforeGap(a, s, w, e);
      }
    }
  }

  lemma GapIsNoWord(c: char)
    requires GapStart(c)
    ensures !IsWordByte(c)
  {}

  lemma GapEndsOutsideWord(s: string, c: nat)
    requires c < |s| && c < GapNext(s, c) < |s|
    ensures !IsWordByte(s[GapNext(s, c) - 1])
  {
    if !IsSpace(s[c]) {
      if OpensLine(s, c) {
        LineLast(s, c + 2);
      } else {
        PairLast(s, c + 2, '*', '/');
      }
    }
  }

  lemma NoGapMoves(s: string, c: nat, w: string, m: nat)
    requires m > 0 && Same(s, c, w, c, m) && WordEnd(s, c) > c
    ensures GapNext(w, c) == c && IsWordByte(w[c])
  {}

  /** One scanner step inside a leading part is the same whatever gap follows the part. */
  lemma NextBeforeGap(a: string, s: string, y: string, c: nat)
    requires s == a + " " && c < |a| < |y| && IsWordByte(a[|a| - 1]) && GapStart(y[|a|])
    requires Same(s, c, y, c, |a| - c) && FreeBefore(s, c) == FreeBefore(y, c)
    requires Next(s, c) <= |a|
    ensures Skip(y, c) == Skip(s, c)
  {
    var m := |a| - c;
    if Next(s, c) < |a| {
      NextMoves(s, c, y, c, m);
    } else if Skip(s, c) > c {
      StretchLast(s, c);
      assert OpensBody(s, c);
      BodyMoves(s, y, c, m);
    } else {
      assert c + 1 == |a| && y[c] == s[c];
    }
  }

  lemma BodyMoves(s: string, y: string, c: nat, m: nat)
    requires m > 1 && c + m < |s| && c + m <= |y| && Same(s, c, y, c, m)
    requires FreeBefore(s, c) == FreeBefore(y, c)
    requires OpensBody(s, c) && Skip(s, c) == PairEnd(s, c + 2, '$', '$') == c + m
    ensures Skip(y, c) == Skip(s, c)
  {
    OpensMoves(s, c, y, c, m);
    PairEndMoves(s, c + 2, y, c + 2, m - 2, '$', '$');
  }

  lemma {:induction false} EndBeforeGap(a: string, s: string, y: string, c: nat)
    requires s == a + " " && c <= |a| < |y| && a != "" && IsWordByte(a[|a| - 1]) && GapStart(y[|a|])
    requires Same(s, c, y, c, |a| - c) && FreeBefore(s, c) == FreeBefore(y, c)
    requires Reaches(s, c, |a|) && StatementEnd(s, c) >= |a|
    ensures StatementEnd(y, c) == StatementEnd(y, |a|)
    decreases |a| - c
  {
    if c < |a| {
      NextBeforeGap(a, s, y, c);
      var e := Next(s, c);
      SameDrop(s, c, y, c, |a| - c, e - c);
      EndBeforeGap(a, s, y, e);
    }
  }

  lemma {:induction false} WordsMove(s: string, c: nat, t: string, d: nat, m: nat)
    requires Same(s, c, t, d, m) && c + m == |s| && d + m == |t|
    ensures Words(t, d) == Words(s, c)
    decreases m
  {
    hide OpensLine, OpensBlock, IsSpace;
    if m > 0 {
      TailGapMoves(s, c, t, d, m);
      var e := WordStep(s, c);
      if GapNext(s, c) > c {
        SameTail(s, c, t, d, m, e - c);
        WordsMove(s, e, t, d + e - c, m - (e - c));
      } else if IsWordByte(s[c]) {
        WordEndMoves(s, c, t, d, m);
        SameSlice(s, c, t, d, m, e - c);
        SameTail(s, c, t, d, m, e - c);
        WordsMove(s, e, t, d + e - c, m - (e - c));
      }
    }
  }

  lemma TailGapMoves(s: string, c: nat, t: string, d: nat, m: nat)
    requires m > 0 && Same(s, c, t, d, m) && c + m == |s| && d + m == |t|
    ensures GapNext(t, d) == GapNext(s, c) - c + d
  {
    if OpensLine(s, c) {
      LineEndMoves(s, c + 2, t, d + 2, m - 2);
    } else if OpensBlock(s, c) {
      PairEndMoves(s, c + 2, t, d + 2, m - 2, '*', '/');
    }
  }

  // ---------------------------------------------------------------- the law

  /** `y` is `a`, then `g`, then `b`; `s` and `gs` are `a` and `g` with one character after them. */
  predicate Joined(a: string, s: string, g: string, gs: string, b: string, y: string) {
    && LeadingPart(a) && ClosedGap(g) && (a != "" ==> g != "")
    && s == a + " " && gs == g + ";" && |y| == |a| + |g| + |b|
    && Same(s, 0, y, 0, |a|) && Same(gs, 0, y, |a|, |g|) && Same(b, 0, y, |a| + |g|, |b|)
  }

  lemma JoinedTexts(a: string, g: string, b: string)
    requires LeadingPart(a) && ClosedGap(g) && (a != "" ==> g != "")
    ensures Joined(a, a + " ", g, g + ";", b, a + g + b)
  {
    SameIfEqual(a + " ", 0, a + g + b, 0, |a|);
    SameIfEqual(g + ";", 0, a + g + b, |a|, |g|);
    SameIfEqual(b, 0, a + g + b, |a| + |g|, |b|);
  }

  /** What stands at the two ends of the gap. */
  lemma GapEnds(a: string, s: string, g: string, gs: string, b: string, y: string)
    requires Joined(a, s, g, gs, b, y)
    ensures g != "" ==> GapStart(y[|a|])
    ensures FreeBefore(y, |a| + |g|)
  {
    if g != "" {
      GapLast(gs, 0, |g|);
      SameDrop(gs, 0, y, |a|, |g|, 1);
      SameMeansEqual(gs, 0, y, |a|, |g|);
      assert y[|a| + |g| - 1] == y[|a|..|a| + |g|][|g| - 1] == gs[0..|g|][|g| - 1];
    }
  }

  lemma GapSkippedIn(a: string, s: string, g: string, gs: string, b: string, y: string)
    requires Joined(a, s, g, gs, b, y)
    ensures Words(y, |a|) == Words(b, 0)
    ensures StatementEnd(y, |a|) == |a| + |g| + StatementEnd(b, 0)
  {
    hide Same, Words, StatementEnd, LeadingPart, GapReaches;
    GapIsSkipped(gs, 0, |g|, y, |a|);
    GapEnds(a, s, g, gs, b, y);
    WordsMove(b, 0, y, |a| + |g|, |b|);
    TrackerLaws.StatementEndMoves(b, 0, y, |a| + |g|, |b|);
  }

  /** The words of `a g b` and the end of its first statement do not depend on the gap. */
  lemma AcrossGap(a: string, s: string, g: string, gs: string, b: string, y: string)
    requires Joined(a, s, g, gs, b, y)
    ensures WordReaches(s, 0, |a|)
    ensures Words(y, 0) == WordsTo(s, 0, |a|) + Words(b, 0)
    ensures StatementEnd(y, 0) == |a| + |g| + StatementEnd(b, 0)
  {
    GapSkippedIn(a, s, g, gs, b, y);
    if a != "" {
      GapEnds(a, s, g, gs, b, y);
      WordsBeforeGap(a, s, y, 0);
      EndBeforeGap(a, s, y, 0);
    } else {
      assert WordsTo(s, 0, 0) == [];
    }
  }

  /** A request read across a leading gap, in terms that do not mention the gap. */
  function TrackAcross(flags: Flags, autoCommit: bool, s: string, n: nat, b: string): Flags
    requires n <= |s| && WordReaches(s, 0, n)
  {
    var e := StatementEnd(b, 0);
    Fold(Effect(flags, autoCommit, Kept(WordsTo(s, 0, n) + Words(b[..e], 0))), autoCommit, RestOf(b, e))
  }

  lemma FirstWords(a: string, g: string, b: string)
    requires LeadingPart(a) && ClosedGap(g) && (a != "" ==> g != "")
    ensures var s := a + " ";
            WordReaches(s, 0, |a|) && Words(a + g + b, 0) == WordsTo(s, 0, |a|) + Words(b, 0)
  {
    JoinedTexts(a, g, b);
    AcrossGap(a, a + " ", g, g + ";", b, a + g + b);
  }

  lemma StatementsAcross(a: string, g: string, b: string)
    requires LeadingPart(a) && ClosedGap(g) && (a != "" ==> g != "")
    ensures var e := StatementEnd(b, 0);
            Statements(a + g + b, 0) == [a + g + b[..e]] + RestOf(b, e)
  {
    EndAcross(a, g, b);
    SplitAfter(a + g, b, a + g + b);
  }

  lemma EndAcross(a: string, g: string, b: string)
    requires LeadingPart(a) && ClosedGap(g) && (a != "" ==> g != "")
    ensures StatementEnd(a + g + b, 0) == |a + g| + StatementEnd(b, 0)
  {
    JoinedTexts(a, g, b);
    AcrossGap(a, a + " ", g, g + ";", b, a + g + b);
  }

  lemma AppendSlices(h: string, b: string, e: nat)
    requires e <= |b|
    ensures (h + b)[0..|h| + e] == h + b[..e]
    ensures e < |b| ==> (h + b)[|h| + e] == b[e] && (h + b)[|h| + e + 1..] == b[e + 1..]
  {}

  /** When the first statement of `y`, being `h b`, ends in `b`, the others are those of `b`. */
  lemma SplitAfter(h: string, b: string, y: string)
    requires y == h + b && StatementEnd(y, 0) == |h| + StatementEnd(b, 0)
    ensures Statements(y, 0) == [h + b[..StatementEnd(b, 0)]] + RestOf(b, StatementEnd(b, 0))
  {
    hide StatementEnd, Skip;
    var e := StatementEnd(b, 0);
    AppendSlices(h, b, e);
    if e < |b| {
      RestAfter(y, |h| + e + 1, b, e + 1);
    }
  }

  /** The statements after the one that ends at `e`. */
  function RestOf(b: string, e: nat): seq<string>
    requires e <= |b|
  {
    if e < |b| then Statements(b, e + 1) else []
  }

  lemma TrackWithGap(flags: Flags, autoCommit: bool, a: string, g: string, b: string)
    requires LeadingPart(a) && ClosedGap(g) && (a != "" ==> g != "")
    ensures WordReaches(a + " ", 0, |a|)
    ensures Track(flags, autoCommit, a + g + b) == TrackAcross(flags, autoCommit, a + " ", |a|, b)
  {
    hide WordReaches, LeadingPart, ClosedGap, Words, StatementEnd, Effect, Skip;
    var e := StatementEnd(b, 0);
    StatementsAcross(a, g, b);
    FirstWords(a, g, b[..e]);
    FoldFirst(flags, autoCommit, a + g + b[..e], RestOf(b, e));
  }

  lemma {:induction false} RestAfter(y: string, i: nat, b: string, j: nat)
    requires 0 < i <= |y| && 0 < j <= |b| && y[i - 1] == ';' == b[j - 1] && y[i..] == b[j..]
    ensures Statements(y, i) == Statements(b, j)
  {
    assert y[i..i + (|b| - j)] == y[i..] == b[j..] == b[j..j + (|b| - j)];
    SameIfEqual(y, i, b, j, |b| - j);
    TrackerLaws.StatementsMove(y, i, b, j, |b| - j);
  }

  lemma FoldFirst(flags: Flags, autoCommit: bool, first: string, rest: seq<string>)
    ensures Fold(flags, autoCommit, [first] + rest)
         == Fold(StatementEffect(flags, autoCommit, first), autoCommit, rest)
  {
    assert ([first] + rest)[1..] == rest;
  }

  /** Changing a closed gap before or between the first statement's leading words changes nothing. */
  lemma FirstStatementIgnoresGaps(flags: Flags, autoCommit: bool, a: string, g1: string, g2: string, b: string)
    requires LeadingPart(a) && ClosedGap(g1) && ClosedGap(g2)
    requires a != "" ==> g1 != "" && g2 != ""
    ensures Track(flags, autoCommit, a + g1 + b) == Track(flags, autoCommit, a + g2 + b)
  {
    TrackWithGap(flags, autoCommit, a, g1, b);
    TrackWithGap(flags, autoCommit, a, g2, b);
  }

  /** A statement starts behind this text: it is empty, or ends in a top-level semicolon. */
  predicate StatementStarts(before: string) {
    before == "" || (before[|before| - 1] == ';' && Closed(before[..|before| - 1]))
  }

  /** Changing a closed gap before or between the leading words of any statement changes nothing. */
  lemma {:induction false} TrackIgnoresGaps(flags: Flags, autoCommit: bool, before: string, a: string, g1: string,
                                           g2: string, b: string)
    requires StatementStarts(before) && LeadingPart(a) && ClosedGap(g1) && ClosedGap(g2)
    requires a != "" ==> g1 != "" && g2 != ""
    ensures Track(flags, autoCommit, before + (a + g1 + b)) == Track(flags, autoCommit, before + (a + g2 + b))
  {
    hide Track, LeadingPart, ClosedGap, Closed;
    var x1, x2 := a + g1 + b, a + g2 + b;
    if before == "" {
      assert before + x1 == x1 && before + x2 == x2;
      FirstStatementIgnoresGaps(flags, autoCommit, a, g1, g2, b);
    } else {
      var p := before[..|before| - 1];
      assert before == p + ";";
      TrackerLaws.TrackConcat(flags, autoCommit, p, x1, before + x1);
      TrackerLaws.TrackConcat(flags, autoCommit, p, x2, before + x2);
      FirstStatementIgnoresGaps(Track(flags, autoCommit, p), autoCommit, a, g1, g2, b);
    }
  }
}
