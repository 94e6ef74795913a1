/**
 What the tracker's reading means: bounded words answer as full words do, and the reading of a
 request is a fold that respects concatenation, letter case, blanks and comments.
 */
module TrackerProofs {
  import opened CText
  import Scanner
  import opened Tracker
  import TrackerLaws

  // ---------------------------------------------------------------- bounded words

  /** At most 14 modifiers follow the verb. */
  predicate FewModifiers(words: seq<string>) {
    |words| > 0 ==> ModifiersEnd(words, 1) <= SESSION_WORDS - 1
  }

  /**
   What the 16 kept words cannot see: 15 or more modifiers push the kind of object, or the only
   temporary modifier, out of the buffers.
   */
  predicate Overlooked(words: seq<string>) {
    && |words| > 0 && !FewModifiers(words)
    && (|| (words[0] == "ALTER" && ObjectKind(words) == "SESSION")
        || (words[0] == "DROP" && (ObjectKind(words) == "DATABASE" || ObjectKind(words) == "SCHEMA"))
        || (words[0] == "CREATE" && !AnyTemporary(words, 1, SESSION_WORDS)
            && (|| ObjectKind(words) == "DATABASE" || ObjectKind(words) == "SCHEMA"
                || AnyTemporary(words, SESSION_WORDS, ModifiersEnd(words, 1)))))
  }

  lemma ModifiersAreShort()
    ensures forall w :: w in OBJECT_MODIFIERS ==> |w| < SESSION_WORD_MAX - 1
    ensures forall w :: w in TEMPORARY_MODIFIERS ==> w in OBJECT_MODIFIERS
  {
    assert OBJECT_MODIFIERS[3] in OBJECT_MODIFIERS && OBJECT_MODIFIERS[4] in OBJECT_MODIFIERS
      && OBJECT_MODIFIERS[5] in OBJECT_MODIFIERS;
  }

  lemma CutKeepsKeywords(w: string, keyword: string)
    requires |keyword| < SESSION_WORD_MAX - 1
    ensures Cut(w) == keyword <==> w == keyword
  {}

  lemma CutKeepsModifiers(w: string)
    ensures Cut(w) in OBJECT_MODIFIERS <==> w in OBJECT_MODIFIERS
    ensures Cut(w) in TEMPORARY_MODIFIERS <==> w in TEMPORARY_MODIFIERS
  {
    ModifiersAreShort();
  }

  lemma {:induction false} KeptModifiersEnd(words: seq<string>, i: nat)
    requires i <= |words| && i <= SESSION_WORDS
    ensures var e := ModifiersEnd(words, i);
            ModifiersEnd(Kept(words), i) == if e <= SESSION_WORDS then e else SESSION_WORDS
    decreases |words| - i
  {
    if i < |words| && i < SESSION_WORDS {
      CutKeepsModifiers(words[i]);
      KeptModifiersEnd(words, i + 1);
    }
  }

  lemma KeptAnyTemporary(words: seq<string>, j: nat)
    requires 1 <= j <= |words| && j <= SESSION_WORDS
    ensures AnyTemporary(Kept(words), 1, j) == AnyTemporary(words, 1, j)
  {
    forall k | 1 <= k < j
      ensures Kept(words)[k] in TEMPORARY_MODIFIERS <==> words[k] in TEMPORARY_MODIFIERS
    {
      CutKeepsModifiers(words[k]);
    }
  }

  /** The kind of object the kept words show. */
  lemma KeptKind(words: seq<string>, keyword: string)
    requires |words| > 0 && 0 < |keyword| < SESSION_WORD_MAX - 1
    ensures ObjectKind(Kept(words)) == keyword
            <==> ModifiersEnd(words, 1) < SESSION_WORDS && ObjectKind(words) == keyword
  {
    KeptModifiersEnd(words, 1);
    var e := ModifiersEnd(words, 1);
    if e < |words| {
      CutKeepsKeywords(words[e], keyword);
    }
  }

  /** Exactly when the bounded words give the full words' answer. */
  lemma BoundedTouchesExactly(words: seq<string>)
    ensures TouchesSession(Kept(words)) == (TouchesSession(words) && !Overlooked(words))
  {
    if |words| > 0 {
      var e := ModifiersEnd(words, 1);
      KeptModifiersEnd(words, 1);
      KeptAnyTemporary(words, if e <= SESSION_WORDS then e else SESSION_WORDS);
      KeptKind(words, "SESSION");
      KeptKind(words, "DATABASE");
      KeptKind(words, "SCHEMA");
      VerbKept(words[0]);
      if e > SESSION_WORDS {
        assert AnyTemporary(words, 1, e)
            == (AnyTemporary(words, 1, SESSION_WORDS) || AnyTemporary(words, SESSION_WORDS, e));
      }
    }
  }

  lemma VerbKept(w: string)
    ensures Cut(w) == "USE" <==> w == "USE"
    ensures Cut(w) == "SET" <==> w == "SET"
    ensures Cut(w) == "UNSET" <==> w == "UNSET"
    ensures Cut(w) == "ALTER" <==> w == "ALTER"
    ensures Cut(w) == "CREATE" <==> w == "CREATE"
    ensures Cut(w) == "DROP" <==> w == "DROP"
  {}

  lemma BoundedTransactions(words: seq<string>)
    ensures OpensTransaction(Kept(words)) == OpensTransaction(words)
    ensures EndsTransaction(Kept(words)) == EndsTransaction(words)
  {
    if |words| > 0 {
      assert Kept(words)[0] == Cut(words[0]);
    }
    if |words| > 1 {
      assert Kept(words)[1] == Cut(words[1]);
    }
  }

  // ---------------------------------------------------------------- what the fold computes

  predicate Touches(statement: string) { TouchesSession(Kept(Words(statement, 0))) }

  predicate Ends(statement: string) { EndsTransaction(Kept(Words(statement, 0))) }

  /** The statement leaves a transaction open: it begins one, or autocommit is off and it is not empty. */
  predicate LeavesOpen(statement: string, autoCommit: bool) {
    var words := Kept(Words(statement, 0));
    !EndsTransaction(words) && (OpensTransaction(words) || (!autoCommit && |words| > 0))
  }

  predicate NoneEnds(statements: seq<string>) {
    forall k :: 0 <= k < |statements| ==> !Ends(statements[k])
  }

  /** Statement `i` leaves a transaction open and nothing after it ends it. */
  predicate OpenSince(i: nat, autoCommit: bool, statements: seq<string>)
    requires i < |statements|
  {
    LeavesOpen(statements[i], autoCommit) && NoneEnds(statements[i + 1..])
  }

  /** A transaction is open at the end: one was left open and nothing after it ended it. */
  predicate OpenAtEnd(open: bool, autoCommit: bool, statements: seq<string>) {
    || (open && NoneEnds(statements))
    || (exists i :: 0 <= i < |statements| && OpenSince(i, autoCommit, statements))
  }

  /** `dirty` is never cleared and records any touching statement; `in_transaction` is decided last. */
  lemma {:induction false} FoldMeans(flags: Flags, autoCommit: bool, statements: seq<string>)
    ensures var r := Fold(flags, autoCommit, statements);
            && (r.dirty <==> flags.dirty || exists i :: 0 <= i < |statements| && Touches(statements[i]))
            && (r.inTransaction <==> OpenAtEnd(flags.inTransaction, autoCommit, statements))
    decreases |statements|
  {
    if statements != [] {
      var first, rest := statements[0], statements[1..];
      var f1 := StatementEffect(flags, autoCommit, first);
      FoldMeans(f1, autoCommit, rest);
      assert forall k :: 0 <= k < |rest| ==> rest[k] == statements[k + 1];
      if exists i :: 0 <= i < |statements| && Touches(statements[i]) {
        var i :| 0 <= i < |statements| && Touches(statements[i]);
        assert i > 0 ==> Touches(rest[i - 1]);
      }
      OpenAtEndStep(flags.inTransaction, f1.inTransaction, autoCommit, statements);
    }
  }

  lemma OpenAtEndStep(open: bool, next: bool, autoCommit: bool, statements: seq<string>)
    requires statements != []
    requires next == (!Ends(statements[0]) && (open || LeavesOpen(statements[0], autoCommit)))
    ensures OpenAtEnd(open, autoCommit, statements) == OpenAtEnd(next, autoCommit, statements[1..])
  {
    var rest := statements[1..];
    assert NoneEnds(statements) == (!Ends(statements[0]) && NoneEnds(rest)) by {
      assert forall k :: 0 <= k < |rest| ==> rest[k] == statements[k + 1];
    }
    assert OpenSince(0, autoCommit, statements) == (LeavesOpen(statements[0], autoCommit) && NoneEnds(rest));
    forall i | 0 <= i < |rest|
      ensures OpenSince(i, autoCommit, rest) == OpenSince(i + 1, autoCommit, statements)
    {
      assert rest[i + 1..] == statements[i + 2..];
    }
    if i :| 0 <= i < |statements| && OpenSince(i, autoCommit, statements) {
      assert i > 0 ==> OpenSince(i - 1, autoCommit, rest);
    }
  }

  /** Only a statement that touches its session can be overlooked. */
  lemma OverlookedTouches(words: seq<string>)
    ensures TouchesSession(words) <==> TouchesSession(Kept(words)) || Overlooked(words)
  {
    hide Kept, ObjectKind;
    BoundedTouchesExactly(words);
    if Overlooked(words) && words[0] == "CREATE" && AnyTemporary(words, SESSION_WORDS, ModifiersEnd(words, 1)) {
      assert AnyTemporary(words, 1, ModifiersEnd(words, 1));
    }
  }

  predicate AnyOverlooked(statements: seq<string>) {
    exists i :: 0 <= i < |statements| && Overlooked(Words(statements[i], 0))
  }

  lemma AnyOverlookedStep(statements: seq<string>)
    requires statements != []
    ensures AnyOverlooked(statements) <==> Overlooked(Words(statements[0], 0)) || AnyOverlooked(statements[1..])
  {
    hide Overlooked, Words;
    var rest := statements[1..];
    if i :| 0 <= i < |statements| && Overlooked(Words(statements[i], 0)) {
      assert i > 0 ==> statements[i] == rest[i - 1];
    }
    if i :| 0 <= i < |rest| && Overlooked(Words(rest[i], 0)) {
      assert rest[i] == statements[i + 1];
    }
  }

  /** Side by side, the two readings differ only in what is overlooked. */
  lemma {:induction false} FoldsSideBySide(f: Flags, g: Flags, autoCommit: bool, statements: seq<string>)
    requires f.inTransaction == g.inTransaction && (f.dirty ==> g.dirty)
    ensures var kept, full := Fold(f, autoCommit, statements), FullFold(g, autoCommit, statements);
            && kept.inTransaction == full.inTransaction
            && (full.dirty <==> g.dirty || kept.dirty || AnyOverlooked(statements))
    decreases |statements|
  {
    hide TouchesSession, OpensTransaction, EndsTransaction, Overlooked, Kept, Words, AnyOverlooked;
    if statements == [] {
      NoneOverlooked();
    } else {
      var words := Words(statements[0], 0);
      OverlookedTouches(words);
      BoundedTransactions(words);
      AnyOverlookedStep(statements);
      var f1 := StatementEffect(f, autoCommit, statements[0]);
      var g1 := Effect(g, autoCommit, words);
      KeptWords(words);
      FoldsSideBySide(f1, g1, autoCommit, statements[1..]);
      TrackerLaws.DirtyStays(f1, autoCommit, statements[1..]);
    }
  }

  lemma NoneOverlooked()
    ensures !AnyOverlooked([])
  {}

  lemma KeptWords(words: seq<string>)
    ensures |Kept(words)| > 0 <==> |words| > 0
  {}

  /** Exactly when bounded words track a request as full words would. */
  lemma BoundedTracksExactly(flags: Flags, autoCommit: bool, sql: string)
    ensures Track(flags, autoCommit, sql) == FullTrack(flags, autoCommit, sql)
            <==> Track(flags, autoCommit, sql).dirty || !AnyOverlooked(Statements(sql, 0))
  {
    hide AnyOverlooked, Statements;
    FoldsSideBySide(flags, flags, autoCommit, Statements(sql, 0));
    TrackerLaws.DirtyStays(flags, autoCommit, Statements(sql, 0));
  }

  /** With at most 14 modifiers in every statement, nothing is overlooked. */
  lemma BoundedTracksFully(flags: Flags, autoCommit: bool, sql: string)
    requires forall i :: 0 <= i < |Statements(sql, 0)| ==> FewModifiers(Words(Statements(sql, 0)[i], 0))
    ensures Track(flags, autoCommit, sql) == FullTrack(flags, autoCommit, sql)
  {
    hide Statements, Words;
    BoundedTracksExactly(flags, autoCommit, sql);
  }

  lemma {:induction false} ModifiersRun(words: seq<string>, i: nat)
    requires |words| == 17 && 1 <= i <= 16 && words[16] == "DATABASE"
    requires forall k :: i <= k < 16 ==> words[k] == "OR"
    ensures ModifiersEnd(words, i) == 16
    decreases 16 - i
  {
    if i < 16 {
      assert words[i] == "OR" == OBJECT_MODIFIERS[0];
      ModifiersRun(words, i + 1);
    }
  }

  // ---------------------------------------------------------------- a request that shows it

  predicate IsCapitals(w: string) { w != "" && forall i :: 0 <= i < |w| ==> 'A' <= w[i] <= 'Z' }

  /** A request of these words, a blank behind each. */
  function Spaced(words: seq<string>): string {
    if words == [] then "" else (words[0] + " ") + Spaced(words[1..])
  }

  lemma {:induction false} CapitalsEnd(s: string, c: nat, e: nat)
    requires c <= e < |s| && s[e] == ' ' && forall i :: c <= i < e ==> 'A' <= s[i] <= 'Z'
    ensures WordEnd(s, c) == e
    decreases e - c
  {
    if c < e {
      CapitalsEnd(s, c + 1, e);
    }
  }

  lemma CapitalsRead(s: string, c: nat, e: nat)
    requires c < e < |s| && s[e] == ' ' && forall i :: c <= i < e ==> 'A' <= s[i] <= 'Z'
    ensures Words(s, c) == [s[c..e]] + Words(s, e + 1)
  {
    CapitalsEnd(s, c, e);
    assert Upper(s[c..e]) == s[c..e];
    assert GapNext(s, c) == c && GapNext(s, e) == e + 1;
  }

  lemma {:induction false} WordsOfSpaced(words: seq<string>, s: string, c: nat)
    requires (forall w :: w in words ==> IsCapitals(w)) && c <= |s| && s[c..] == Spaced(words)
    ensures Words(s, c) == words
    decreases |words|
  {
    hide Words;
    if words == [] {
      assert |s[c..]| == 0;
      NoWords(s);
    } else {
      var w := words[0];
      var e := c + |w|;
      assert w in words && IsCapitals(w);
      WordInText(s, c, w, Spaced(words[1..]));
      CapitalsRead(s, c, e);
      WordsOfSpaced(words[1..], s, e + 1);
      assert words == [w] + words[1..];
    }
  }

  lemma {:induction false} SpacedIsQuiet(words: seq<string>)
    requires forall w :: w in words ==> IsCapitals(w)
    ensures forall i :: 0 <= i < |Spaced(words)| ==> IsAlpha(Spaced(words)[i]) || Spaced(words)[i] == ' '
    decreases |words|
  {
    if words != [] {
      assert words[0] in words;
      SpacedIsQuiet(words[1..]);
    }
  }

  lemma NoWords(s: string)
    ensures Words(s, |s|) == []
  {}

  lemma WordInText(s: string, c: nat, w: string, rest: string)
    requires c <= |s| && s[c..] == (w + " ") + rest
    ensures var e := c + |w|; e < |s| && s[e] == ' ' && s[c..e] == w && s[e + 1..] == rest
    ensures forall i :: 0 <= i < |w| ==> s[c + i] == w[i]
  {
    var e := c + |w|;
    assert s[c..][..|w|] == w && s[c..e] == s[c..][..|w|];
    assert s[e] == s[c..][|w|] == ' ' && s[e + 1..] == s[c..][|w| + 1..];
    assert forall i :: 0 <= i < |w| ==> s[c + i] == s[c..][i];
  }

  /** A request of words is one statement with those words. */
  lemma SpacedIsOneStatement(words: seq<string>, sql: string)
    requires (forall w :: w in words ==> IsCapitals(w)) && sql == Spaced(words)
    ensures Statements(sql, 0) == [sql] && Words(sql, 0) == words
  {
    hide Words, Scanner.Skip;
    assert sql[0..] == sql;
    WordsOfSpaced(words, sql, 0);
    SpacedIsQuiet(words);
    TrackerLaws.QuietRun(sql, 0, |sql|);
    assert sql[0..|sql|] == sql;
  }

  /** One statement's tracking, in both readings. */
  lemma OneStatementTracked(flags: Flags, autoCommit: bool, sql: string)
    requires Statements(sql, 0) == [sql]
    ensures Track(flags, autoCommit, sql) == Effect(flags, autoCommit, Kept(Words(sql, 0)))
    ensures FullTrack(flags, autoCommit, sql) == Effect(flags, autoCommit, Words(sql, 0))
  {
    hide Effect, Kept, Words, Statements;
    var statements := Statements(sql, 0);
    assert statements[0] == sql && statements[1..] == [];
    NothingFolded(StatementEffect(flags, autoCommit, sql), autoCommit);
    NothingFolded(Effect(flags, autoCommit, Words(sql, 0)), autoCommit);
  }

  lemma NothingFolded(flags: Flags, autoCommit: bool)
    ensures Fold(flags, autoCommit, []) == flags && FullFold(flags, autoCommit, []) == flags
  {}

  /**
   The bound is tight: of `CREATE OR OR ... OR DATABASE` with 15 times OR, the tracker sees nothing,
   where the full words see a database created.
   */
  lemma {:induction false} FifteenModifiersHideTheKind(words: seq<string>, sql: string)
    requires words == ["CREATE"] + seq(15, i => "OR") + ["DATABASE"] && sql == Spaced(words)
    ensures Track(NOTHING_HELD, true, sql) == NOTHING_HELD
    ensures FullTrack(NOTHING_HELD, true, sql) == Flags(true, false)
  {
    hide Track, FullTrack, Effect, Kept, Words, Spaced;
    SpacedIsOneStatement(words, sql);
    OneStatementTracked(NOTHING_HELD, true, sql);
    CreateHere(words);
  }

  lemma CreateHere(words: seq<string>)
    requires |words| == 17 && words[0] == "CREATE" && words[16] == "DATABASE"
    requires forall k :: 1 <= k < 16 ==> words[k] == "OR"
    ensures Effect(NOTHING_HELD, true, Kept(words)) == NOTHING_HELD
    ensures Effect(NOTHING_HELD, true, words) == Flags(true, false)
  {
    hide Kept, Overlooked, TouchesSession;
    ModifiersRun(words, 1);
    OverlookedHere(words);
    OverlookedTouches(words);
    BoundedTouchesExactly(words);
    BoundedTransactions(words);
  }

  lemma OverlookedHere(words: seq<string>)
    requires |words| == 17 && words[0] == "CREATE" && words[16] == "DATABASE" && ModifiersEnd(words, 1) == 16
    requires forall k :: 1 <= k < 16 ==> words[k] == "OR"
    ensures Overlooked(words)
  {
    assert ObjectKind(words) == "DATABASE";
    assert "OR" !in TEMPORARY_MODIFIERS;
  }
}
