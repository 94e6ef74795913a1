/**
 Which requests leave context, and which open or end a transaction, said on request texts with the
 words written out; and which blanks and comments may stand between those words.
 */
module TrackerForms {
  import opened CText
  import opened Scanner
  import opened Tracker
  import TrackerLaws
  import TrackerProofs
  import ScannerForms

  // ---------------------------------------------------------------- a request's leading words

  /** A letter, a digit, `_`, `$`, or a byte of a multibyte letter. */
  predicate IsWordChar(c: char) {
    'a' <= c <= 'z' || 'A' <= c <= 'Z' || '0' <= c <= '9' || c == '_' || c == '$' || c as int >= 128
  }

  /** A word in which no `$$` opens a body. */
  predicate IsWord(w: string) {
    && w != "" && (forall i :: 0 <= i < |w| ==> IsWordChar(w[i]))
    && (forall i :: 0 <= i < |w| - 1 && w[i] == '$' == w[i + 1] ==> i > 0 && ScannerForms.EndsIdentifier(w[i - 1]))
  }

  predicate AreWords(words: seq<string>) { forall i :: 0 <= i < |words| ==> IsWord(words[i]) }

  /** The words with a blank between every two. */
  function Line(words: seq<string>): string
    decreases |words|
  {
    if words == [] then "" else if |words| == 1 then words[0] else words[0] + (" " + Line(words[1..]))
  }

  /** What follows the last word does not continue it. */
  predicate Breaks(tail: string) { tail == "" || !IsWordChar(tail[0]) }

  function UpperAll(words: seq<string>): (r: seq<string>)
    ensures |r| == |words| && forall i :: 0 <= i < |words| ==> r[i] == Upper(words[i])
  {
    seq(|words|, i requires 0 <= i < |words| => Upper(words[i]))
  }

  lemma {:induction false} WordRuns(s: string, c: nat, e: nat)
    requires c <= e <= |s| && (forall i :: c <= i < e ==> IsWordChar(s[i])) && (e < |s| ==> !IsWordChar(s[e]))
    ensures WordEnd(s, c) == e
    decreases e - c
  {
    if c < e {
      WordRuns(s, c + 1, e);
    }
  }

  lemma WordRead(s: string, c: nat, w: string, rest: string)
    requires IsWord(w) && Breaks(rest) && c <= |s| && s[c..] == w + rest
    ensures c + |w| <= |s| && s[c + |w|..] == rest
    ensures Words(s, c) == [Upper(w)] + Words(s, c + |w|)
  {
    hide Words;
    var e := c + |w|;
    assert s[e..] == s[c..][|w|..] == rest;
    assert s[c..e] == s[c..][..|w|] == w;
    assert forall i :: c <= i < e ==> s[i] == s[c..e][i - c] == w[i - c];
    assert e < |s| ==> s[e] == s[e..][0];
    WordRuns(s, c, e);
    WordStarts(s, c);
  }

  lemma WordStarts(s: string, c: nat)
    requires c < |s| && IsWordChar(s[c])
    ensures Words(s, c) == [Upper(s[c..WordEnd(s, c)])] + Words(s, WordEnd(s, c))
  {}

  lemma BlankSkipped(s: string, c: nat)
    requires c < |s| && s[c] == ' '
    ensures Words(s, c) == Words(s, c + 1)
  {}

  lemma UpperFirst(words: seq<string>)
    requires words != []
    ensures UpperAll(words) == [Upper(words[0])] + UpperAll(words[1..])
  {
    hide Upper;
  }

  /** A line of several words in a text: the first one, the blank behind it, the others. */
  lemma LineInText(words: seq<string>, tail: string, s: string, c: nat)
    requires |words| > 1 && c <= |s| && s[c..] == Line(words) + tail
    ensures s[c..] == words[0] + (" " + (Line(words[1..]) + tail))
    ensures var e := c + |words[0]|; e < |s| && s[e] == ' ' && s[e + 1..] == Line(words[1..]) + tail
    ensures |Line(words)| == |words[0]| + 1 + |Line(words[1..])|
  {
    var e := c + |words[0]|;
    assert s[c..] == words[0] + (" " + (Line(words[1..]) + tail));
    assert s[e] == s[c..][|words[0]|] && s[e + 1..] == s[c..][|words[0]| + 1..];
  }

  lemma OneWordLine(words: seq<string>)
    requires |words| == 1
    ensures Line(words) == words[0] && words[1..] == []
  {}

  lemma BlankBreaks(rest: string)
    ensures Breaks(" " + rest)
  {}

  /** The words of a line are read, whatever follows it. */
  lemma {:induction false} LineRead(words: seq<string>, tail: string, s: string, c: nat)
    requires words != [] && AreWords(words) && Breaks(tail) && c <= |s| && s[c..] == Line(words) + tail
    ensures c + |Line(words)| <= |s| && Words(s, c) == UpperAll(words) + Words(s, c + |Line(words)|)
    decreases |words|
  {
    hide Words, Upper, UpperAll, IsWord, Line, Breaks;
    var w := words[0];
    UpperFirst(words);
    if |words| == 1 {
      OneWordLine(words);
      WordRead(s, c, w, tail);
      assert UpperAll([]) == [];
    } else {
      LineInText(words, tail, s, c);
      BlankBreaks(Line(words[1..]) + tail);
      var e := c + |w|;
      WordRead(s, c, w, " " + (Line(words[1..]) + tail));
      BlankSkipped(s, e);
      LineRead(words[1..], tail, s, e + 1);
    }
  }

  // ---------------------------------------------------------------- the first statement

  lemma {:induction false} WordPassed(s: string, c: nat, w: string, i: nat)
    requires IsWord(w) && i <= |w| && c + |w| <= |s| && s[c..c + |w|] == w && (c == 0 || s[c - 1] == ' ')
    requires c + |w| < |s| ==> !IsWordChar(s[c + |w|])
    ensures Tracker.StatementEnd(s, c + i) == Tracker.StatementEnd(s, c + |w|)
    decreases |w| - i
  {
    hide Skip, StatementEnd;
    if i < |w| {
      assert s[c + i] == s[c..c + |w|][i] && (i + 1 < |w| ==> s[c + i + 1] == s[c..c + |w|][i + 1])
        && (i > 0 ==> s[c + i - 1] == s[c..c + |w|][i - 1]);
      CharPassed(s, c + i);
      WordPassed(s, c, w, i + 1);
    }
  }

  /** A word character with no `$$` that opens here. */
  lemma CharPassed(s: string, i: nat)
    requires i < |s| && IsWordChar(s[i])
    requires s[i] == '$' && i + 1 < |s| && s[i + 1] == '$' ==> i > 0 && ScannerForms.EndsIdentifier(s[i - 1])
    ensures StatementEnd(s, i) == StatementEnd(s, i + 1)
  {}

  lemma WordAt(s: string, c: nat, w: string, rest: string)
    requires IsWord(w) && Breaks(rest) && c <= |s| && s[c..] == w + rest
    ensures var e := c + |w|; e <= |s| && s[c..e] == w && s[e..] == rest && (e < |s| ==> !IsWordChar(s[e]))
  {
    hide IsWord;
    var e := c + |w|;
    assert s[c..e] == s[c..][..|w|] && s[e..] == s[c..][|w|..] == rest;
    assert e < |s| ==> s[e] == s[e..][0];
  }

  lemma WholeWordPassed(s: string, c: nat, w: string, rest: string)
    requires IsWord(w) && Breaks(rest) && c <= |s| && s[c..] == w + rest && AfterBlank(s, c)
    ensures c + |w| <= |s| && StatementEnd(s, c) == StatementEnd(s, c + |w|)
  {
    hide Skip, IsWord, StatementEnd, Breaks;
    WordAt(s, c, w, rest);
    WordPassed(s, c, w, 0);
  }

  predicate AfterBlank(s: string, c: nat)
    requires c <= |s|
  {
    c == 0 || s[c - 1] == ' '
  }

  /** No statement ends in a line of words. */
  lemma {:induction false} LinePassed(words: seq<string>, tail: string, s: string, c: nat)
    requires words != [] && AreWords(words) && Breaks(tail) && c <= |s| && s[c..] == Line(words) + tail
    requires AfterBlank(s, c)
    ensures c + |Line(words)| <= |s| && StatementEnd(s, c) == StatementEnd(s, c + |Line(words)|)
    decreases |words|
  {
    hide Skip, IsWord, StatementEnd, Line, Breaks;
    var w := words[0];
    var e := c + |w|;
    if |words| == 1 {
      OneWordLine(words);
      WholeWordPassed(s, c, w, tail);
    } else {
      LineInText(words, tail, s, c);
      BlankBreaks(Line(words[1..]) + tail);
      WholeWordPassed(s, c, w, " " + (Line(words[1..]) + tail));
      BlankPassed(s, e);
      LinePassed(words[1..], tail, s, e + 1);
    }
  }

  lemma BlankPassed(s: string, c: nat)
    requires c < |s| && s[c] == ' '
    ensures StatementEnd(s, c) == StatementEnd(s, c + 1)
  {}

  /** The first statement of a request that starts with a line of words has them as its leading words. */
  lemma FirstWords(words: seq<string>, tail: string, s: string)
    requires words != [] && AreWords(words) && Breaks(tail) && s == Line(words) + tail
    ensures UpperAll(words) <= Words(Statements(s, 0)[0], 0)
  {
    hide StatementEnd, Words, UpperAll, IsWord;
    assert s[0..] == s;
    LinePassed(words, tail, s, 0);
    var e := StatementEnd(s, 0);
    var rest := tail[..e - |Line(words)|];
    assert s[0..e] == Line(words) + rest && s[0..e][0..] == s[0..e];
    LineRead(words, rest, s[0..e], 0);
  }

  // ---------------------------------------------------------------- words behind CREATE, DROP and ALTER

  predicate IsModifier(w: string) {
    || w == "OR" || w == "REPLACE" || w == "TRANSIENT" || w == "TEMPORARY" || w == "TEMP" || w == "VOLATILE"
    || w == "LOCAL" || w == "GLOBAL" || w == "SECURE" || w == "IF" || w == "NOT" || w == "EXISTS" || w == "PUBLIC"
    || w == "PRIVATE" || w == "ICEBERG" || w == "DYNAMIC" || w == "HYBRID" || w == "EVENT" || w == "RECURSIVE"
    || w == "MATERIALIZED" || w == "EXTERNAL"
  }

  predicate IsTemporary(w: string) { w == "TEMPORARY" || w == "TEMP" || w == "VOLATILE" }

  lemma ModifiersAreListed(w: string)
    ensures IsModifier(w) <==> w in OBJECT_MODIFIERS
  {
    assert OBJECT_MODIFIERS[0] == "OR";
    assert OBJECT_MODIFIERS[1] == "REPLACE";
    assert OBJECT_MODIFIERS[2] == "TRANSIENT";
    assert OBJECT_MODIFIERS[3] == "TEMPORARY";
    assert OBJECT_MODIFIERS[4] == "TEMP";
    assert OBJECT_MODIFIERS[5] == "VOLATILE";
    assert OBJECT_MODIFIERS[6] == "LOCAL";
    assert OBJECT_MODIFIERS[7] == "GLOBAL";
    assert OBJECT_MODIFIERS[8] == "SECURE";
    assert OBJECT_MODIFIERS[9] == "IF";
    assert OBJECT_MODIFIERS[10] == "NOT";
    assert OBJECT_MODIFIERS[11] == "EXISTS";
    assert OBJECT_MODIFIERS[12] == "PUBLIC";
    assert OBJECT_MODIFIERS[13] == "PRIVATE";
    assert OBJECT_MODIFIERS[14] == "ICEBERG";
    assert OBJECT_MODIFIERS[15] == "DYNAMIC";
    assert OBJECT_MODIFIERS[16] == "HYBRID";
    assert OBJECT_MODIFIERS[17] == "EVENT";
    assert OBJECT_MODIFIERS[18] == "RECURSIVE";
    assert OBJECT_MODIFIERS[19] == "MATERIALIZED";
    assert OBJECT_MODIFIERS[20] == "EXTERNAL";
  }

  lemma TemporariesAreListed(w: string)
    ensures IsTemporary(w) <==> w in TEMPORARY_MODIFIERS
  {
    assert TEMPORARY_MODIFIERS[0] == "TEMPORARY" && TEMPORARY_MODIFIERS[1] == "TEMP"
      && TEMPORARY_MODIFIERS[2] == "VOLATILE";
  }

  /** The words from `i` to `k` are modifiers. */
  predicate ModifierRun(words: seq<string>, i: nat, k: nat)
    requires i <= k <= |words|
  {
    forall j :: i <= j < k ==> IsModifier(words[j])
  }

  lemma {:induction false} RunEnds(words: seq<string>, i: nat, k: nat)
    requires i <= k < |words| && ModifierRun(words, i, k) && !IsModifier(words[k])
    ensures ModifiersEnd(words, i) == k
    decreases k - i
  {
    hide IsModifier;
    ModifiersAreListed(words[i]);
    if i < k {
      RunEnds(words, i + 1, k);
    }
  }

  lemma {:induction false} RunReaches(words: seq<string>, i: nat, k: nat)
    requires i <= k <= |words| && ModifierRun(words, i, k)
    ensures ModifiersEnd(words, i) >= k
    decreases k - i
  {
    hide IsModifier;
    if i < k {
      ModifiersAreListed(words[i]);
      RunReaches(words, i + 1, k);
    }
  }

  /** The kind of object named at `k`, behind modifiers. */
  lemma KindAt(words: seq<string>, k: nat)
    requires 1 <= k < |words| && ModifierRun(words, 1, k) && !IsModifier(words[k])
    ensures ObjectKind(words) == words[k]
    ensures k <= 15 ==> !TrackerProofs.Overlooked(words)
    ensures AnyTemporary(words, 1, ModifiersEnd(words, 1)) <==> exists j :: 1 <= j < k && IsTemporary(words[j])
  {
    hide IsModifier, IsTemporary, ModifierRun;
    RunEnds(words, 1, k);
    forall j | 1 <= j < k
      ensures IsTemporary(words[j]) <==> words[j] in TEMPORARY_MODIFIERS
    {
      TemporariesAreListed(words[j]);
    }
  }

  // ---------------------------------------------------------------- requests that leave context

  /** A request whose first statement touches the session ends dirty, whatever follows. */
  lemma TouchedStays(flags: Flags, autoCommit: bool, s: string)
    requires TouchesSession(Kept(Words(Statements(s, 0)[0], 0)))
    ensures Track(flags, autoCommit, s).dirty
  {
    hide TouchesSession, Kept, Words, Statements;
    var statements := Statements(s, 0);
    TrackerLaws.DirtyStays(StatementEffect(flags, autoCommit, statements[0]), autoCommit, statements[1..]);
  }

  /** A request that starts with these words, in any letter case. */
  predicate StartsWith(s: string, words: seq<string>, tail: string) {
    words != [] && AreWords(words) && Breaks(tail) && s == Line(words) + tail
  }

  /** USE, SET and UNSET, whatever follows. */
  lemma {:induction false} SettingTouches(flags: Flags, autoCommit: bool, s: string, words: seq<string>, tail: string)
    requires StartsWith(s, words, tail)
    requires Upper(words[0]) == "USE" || Upper(words[0]) == "SET" || Upper(words[0]) == "UNSET"
    ensures Track(flags, autoCommit, s).dirty
  {
    hide Track, Words, Statements, Line, AreWords, Breaks;
    FirstWords(words, tail, s);
    var all := Words(Statements(s, 0)[0], 0);
    assert all[0] == UpperAll(words)[0];
    TrackerProofs.VerbKept(all[0]);
    TouchedStays(flags, autoCommit, s);
  }

  /** The verb, its modifiers, and the kind of object at the end of the line. */
  predicate Names(words: seq<string>, verb: string, kind: string) {
    var n := |words|;
    && 2 <= n && Upper(words[0]) == verb && Upper(words[n - 1]) == kind
    && forall j :: 1 <= j < n - 1 ==> IsModifier(Upper(words[j]))
  }

  lemma LineOfModifiers(words: seq<string>, verb: string, kind: string, all: seq<string>)
    requires Names(words, verb, kind) && !IsModifier(kind) && UpperAll(words) <= all
    ensures var k := |words| - 1;
            && all[0] == verb && all[k] == kind && ModifierRun(all, 1, k)
            && forall j :: 1 <= j < k ==> all[j] == Upper(words[j])
  {
    hide IsModifier, Upper;
    assert forall j :: 0 <= j < |words| ==> all[j] == UpperAll(words)[j];
  }

  /**
   ALTER SESSION, and CREATE or DROP of a DATABASE or SCHEMA, with up to 14 modifiers before the kind
   of object, whatever follows.
   */
  lemma {:induction false} ObjectTouches(flags: Flags, autoCommit: bool, s: string, words: seq<string>, tail: string)
    requires StartsWith(s, words, tail) && |words| <= 16
    requires || Names(words, "ALTER", "SESSION")
             || Names(words, "CREATE", "DATABASE") || Names(words, "CREATE", "SCHEMA")
             || Names(words, "DROP", "DATABASE") || Names(words, "DROP", "SCHEMA")
    ensures Track(flags, autoCommit, s).dirty
  {
    hide Track, Words, Statements, Line, AreWords, Breaks, Kept, Names;
    FirstWords(words, tail, s);
    ObjectWordsTouch(words, Words(Statements(s, 0)[0], 0));
    TouchedStays(flags, autoCommit, s);
  }

  lemma ObjectWordsTouch(words: seq<string>, all: seq<string>)
    requires UpperAll(words) <= all && |words| <= 16
    requires || Names(words, "ALTER", "SESSION")
             || Names(words, "CREATE", "DATABASE") || Names(words, "CREATE", "SCHEMA")
             || Names(words, "DROP", "DATABASE") || Names(words, "DROP", "SCHEMA")
    ensures TouchesSession(Kept(all))
  {
    hide Kept, UpperAll, Upper, ModifierRun, ObjectKind, TrackerProofs.Overlooked;
    assert |words| > 1;
    var verb, kind := Upper(words[0]), Upper(words[|words| - 1]);
    assert Names(words, verb, kind);
    LineOfModifiers(words, verb, kind, all);
    KindAt(all, |words| - 1);
    TrackerProofs.BoundedTouchesExactly(all);
  }

  /** CREATE with TEMPORARY, TEMP or VOLATILE among its first 15 modifiers, whatever follows. */
  lemma {:induction false} TemporaryTouches(flags: Flags, autoCommit: bool, s: string, words: seq<string>,
                                           tail: string, t: nat)
    requires StartsWith(s, words, tail) && |words| <= 16 && 1 <= t < |words|
    requires Upper(words[0]) == "CREATE" && IsTemporary(Upper(words[t]))
    requires forall j :: 1 <= j < |words| ==> IsModifier(Upper(words[j]))
    ensures Track(flags, autoCommit, s).dirty
  {
    hide Track, Words, Statements, Line, AreWords, Breaks, Kept, Upper, IsModifier, IsTemporary;
    FirstWords(words, tail, s);
    TemporaryWordsTouch(words, Words(Statements(s, 0)[0], 0), t);
    TouchedStays(flags, autoCommit, s);
  }

  lemma TemporaryWordsTouch(words: seq<string>, all: seq<string>, t: nat)
    requires UpperAll(words) <= all && |words| <= 16 && 1 <= t < |words|
    requires Upper(words[0]) == "CREATE" && IsTemporary(Upper(words[t]))
    requires forall j :: 1 <= j < |words| ==> IsModifier(Upper(words[j]))
    ensures TouchesSession(Kept(all))
  {
    hide Kept, Upper, IsModifier, IsTemporary, ObjectKind;
    assert forall j :: 0 <= j < |words| ==> all[j] == UpperAll(words)[j];
    RunReaches(all, 1, |words|);
    TemporariesAreListed(all[t]);
    assert AnyTemporary(all, 1, ModifiersEnd(all, 1));
    assert |all| >= SESSION_WORDS ==> AnyTemporary(all, 1, SESSION_WORDS);
    TrackerProofs.BoundedTouchesExactly(all);
  }

  // ---------------------------------------------------------------- transactions

  /** The request has no top-level semicolon. */
  predicate IsSingle(s: string) { |Statements(s, 0)| == 1 }

  /** A request without a semicolon is one. */
  lemma NoSemicolon(s: string)
    requires forall i :: 0 <= i < |s| ==> s[i] != ';'
    ensures IsSingle(s)
  {
    hide StatementEnd;
    assert StatementEnd(s, 0) == |s|;
  }

  lemma SingleEffect(flags: Flags, autoCommit: bool, s: string)
    requires IsSingle(s)
    ensures Statements(s, 0)[0] == s
    ensures Track(flags, autoCommit, s) == Effect(flags, autoCommit, Kept(Words(s, 0)))
  {
    hide Effect, Kept, Words, StatementEnd, Track;
    assert s[0..|s|] == s;
    TrackerProofs.OneStatementTracked(flags, autoCommit, s);
  }

  /** What a single statement with these leading words does, apart from touching the session. */
  lemma SingleReads(flags: Flags, autoCommit: bool, s: string, words: seq<string>, tail: string)
    requires StartsWith(s, words, tail) && IsSingle(s)
    ensures var all := Words(s, 0);
            var r := Track(flags, autoCommit, s);
            && words != [] && UpperAll(words) <= all
            && r.dirty == (flags.dirty || TouchesSession(Kept(all)))
            && r.inTransaction == (!EndsTransaction(all)
                                   && (flags.inTransaction || OpensTransaction(all) || !autoCommit))
  {
    hide Track, Words, Statements, Line, AreWords, Breaks, Kept, OpensTransaction, EndsTransaction, TouchesSession;
    FirstWords(words, tail, s);
    SingleEffect(flags, autoCommit, s);
    TrackerProofs.BoundedTransactions(Words(s, 0));
    TrackerProofs.KeptWords(Words(s, 0));
  }

  /** COMMIT and ROLLBACK leave no transaction, in either mode, and the context as it was. */
  lemma {:induction false} CommitEnds(flags: Flags, autoCommit: bool, s: string, words: seq<string>, tail: string)
    requires StartsWith(s, words, tail) && IsSingle(s)
    requires Upper(words[0]) == "COMMIT" || Upper(words[0]) == "ROLLBACK"
    ensures Track(flags, autoCommit, s) == Flags(flags.dirty, false)
  {
    hide Track, Words, Statements, Kept, StartsWith, IsSingle;
    SingleReads(flags, autoCommit, s, words, tail);
    var all := Words(s, 0);
    assert all[0] == UpperAll(words)[0];
    OtherVerb(all);
  }

  /** BEGIN TRANSACTION, BEGIN WORK, BEGIN NAME and START TRANSACTION leave a transaction open. */
  lemma {:induction false} BeginOpens(flags: Flags, autoCommit: bool, s: string, words: seq<string>, tail: string)
    requires StartsWith(s, words, tail) && IsSingle(s) && |words| > 1
    requires var (verb, second) := (Upper(words[0]), Upper(words[1]));
             || (verb == "BEGIN" && (second == "TRANSACTION" || second == "WORK" || second == "NAME"))
             || (verb == "START" && second == "TRANSACTION")
    ensures Track(flags, autoCommit, s) == Flags(flags.dirty, true)
  {
    hide Track, Words, Statements, Kept, StartsWith, IsSingle;
    SingleReads(flags, autoCommit, s, words, tail);
    var all := Words(s, 0);
    assert all[0] == UpperAll(words)[0] && all[1] == UpperAll(words)[1];
    OtherVerb(all);
  }

  /** BEGIN alone, with blanks behind it or none, leaves a transaction open. */
  lemma {:induction false} BeginAloneOpens(flags: Flags, autoCommit: bool, s: string, word: string, blanks: string)
    requires StartsWith(s, [word], blanks) && IsSingle(s) && AreBlanks(blanks) && Upper(word) == "BEGIN"
    ensures Track(flags, autoCommit, s) == Flags(flags.dirty, true)
  {
    hide Track, Statements, Kept, IsSingle;
    SingleReads(flags, autoCommit, s, [word], blanks);
    assert s[0..] == s;
    LineRead([word], blanks, s, 0);
    assert s[|word|..] == blanks;
    BlanksHoldNoWord(s, |word|);
    assert Words(s, 0) == UpperAll([word]);
    OtherVerb(Words(s, 0));
  }

  /** Blank, tab, newline, vertical tab, form feed and carriage return. */
  predicate AreBlanks(x: string) {
    forall i :: 0 <= i < |x| ==> x[i] == ' ' || x[i] == '\t' || x[i] == '\n' || x[i] == '\r'
                                 || x[i] as int == 11 || x[i] as int == 12
  }

  lemma {:induction false} BlanksHoldNoWord(s: string, c: nat)
    requires c <= |s| && AreBlanks(s[c..])
    ensures Words(s, c) == []
    decreases |s| - c
  {
    if c < |s| {
      assert s[c] == s[c..][0] && s[c + 1..] == s[c..][1..];
      BlanksHoldNoWord(s, c + 1);
    }
  }

  // ---------------------------------------------------------------- requests that leave nothing

  predicate SetsUp(verb: string) {
    || verb == "USE" || verb == "SET" || verb == "UNSET" || verb == "ALTER" || verb == "CREATE" || verb == "DROP"
  }

  lemma OtherVerb(all: seq<string>)
    requires |all| > 0 && !SetsUp(all[0])
    ensures !TouchesSession(Kept(all))
  {
    hide Kept, ObjectKind;
    TrackerProofs.BoundedTouchesExactly(all);
  }

  /**
   Every other first word, and BEGIN or START with any other second one, leaves the flags alone; with
   autocommit off it may leave a transaction open.
   */
  lemma {:induction false} OtherWordsLeaveNothing(flags: Flags, autoCommit: bool, s: string, words: seq<string>,
                                                 tail: string)
    requires StartsWith(s, words, tail) && IsSingle(s) && !SetsUp(Upper(words[0]))
    requires Upper(words[0]) != "COMMIT" && Upper(words[0]) != "ROLLBACK"
    requires Upper(words[0]) == "BEGIN" ==>
               && |words| > 1 && Upper(words[1]) != "TRANSACTION" && Upper(words[1]) != "WORK"
               && Upper(words[1]) != "NAME"
    requires Upper(words[0]) == "START" ==> |words| > 1 && Upper(words[1]) != "TRANSACTION"
    ensures Track(flags, autoCommit, s) == Flags(flags.dirty, flags.inTransaction || !autoCommit)
  {
    hide Track, Words, Statements, Kept, StartsWith, IsSingle, Upper, OpensTransaction, EndsTransaction;
    SingleReads(flags, autoCommit, s, words, tail);
    var all := Words(s, 0);
    assert all[0] == UpperAll(words)[0] && (|words| > 1 ==> all[1] == UpperAll(words)[1]);
    OtherVerb(all);
    OtherTransaction(all);
  }

  lemma OtherTransaction(all: seq<string>)
    requires |all| > 0 && all[0] != "COMMIT" && all[0] != "ROLLBACK"
    requires all[0] == "BEGIN" ==> |all| > 1 && all[1] != "TRANSACTION" && all[1] != "WORK" && all[1] != "NAME"
    requires all[0] == "START" ==> |all| > 1 && all[1] != "TRANSACTION"
    ensures !OpensTransaction(all) && !EndsTransaction(all)
  {}

  /**
   CREATE, DROP and ALTER of anything else, modifiers before it or not, leave the flags alone: no
   DATABASE or SCHEMA, no SESSION, and for a CREATE none of the modifiers a temporary one.
   */
  lemma {:induction false} OtherObjectsLeaveNothing(flags: Flags, s: string, words: seq<string>, tail: string,
                                                   verb: string, kind: string)
    requires StartsWith(s, words, tail) && IsSingle(s) && Names(words, verb, kind) && !IsModifier(kind)
    requires || (verb == "ALTER" && kind != "SESSION")
             || (verb == "DROP" && kind != "DATABASE" && kind != "SCHEMA")
             || (verb == "CREATE" && kind != "DATABASE" && kind != "SCHEMA"
                 && forall j :: 1 <= j < |words| - 1 ==> !IsTemporary(Upper(words[j])))
    ensures Track(flags, true, s) == flags
  {
    hide Track, Words, Statements, Kept, StartsWith, IsSingle, Upper, Names, IsModifier, IsTemporary, TouchesSession;
    SingleReads(flags, true, s, words, tail);
    OtherObjects(words, verb, kind, Words(s, 0));
  }

  lemma OtherObjects(words: seq<string>, verb: string, kind: string, all: seq<string>)
    requires Names(words, verb, kind) && !IsModifier(kind) && UpperAll(words) <= all
    requires || (verb == "ALTER" && kind != "SESSION")
             || (verb == "DROP" && kind != "DATABASE" && kind != "SCHEMA")
             || (verb == "CREATE" && kind != "DATABASE" && kind != "SCHEMA"
                 && forall j :: 1 <= j < |words| - 1 ==> !IsTemporary(Upper(words[j])))
    ensures !TouchesSession(Kept(all)) && !OpensTransaction(all) && !EndsTransaction(all)
  {
    hide Kept, UpperAll, Upper, IsModifier, IsTemporary, ModifierRun, ObjectKind, TouchesSession, OpensTransaction,
      EndsTransaction, Names, TrackerProofs.Overlooked, ModifiersEnd, AnyTemporary;
    LineOfModifiers(words, verb, kind, all);
    NamesMean(words, verb, kind);
    var k := |words| - 1;
    KindAt(all, k);
    assert verb == "CREATE" ==> !AnyTemporary(all, 1, ModifiersEnd(all, 1));
    OtherKind(all, verb, kind);
    OtherTransaction(all);
    TrackerProofs.BoundedTouchesExactly(all);
  }

  lemma NamesMean(words: seq<string>, verb: string, kind: string)
    requires Names(words, verb, kind)
    ensures |words| > 1
  {}

  lemma OtherKind(all: seq<string>, verb: string, kind: string)
    requires |all| > 0 && verb == all[0] && kind == ObjectKind(all)
    requires || (verb == "ALTER" && kind != "SESSION")
             || (verb == "DROP" && kind != "DATABASE" && kind != "SCHEMA")
             || (verb == "CREATE" && kind != "DATABASE" && kind != "SCHEMA"
                 && !AnyTemporary(all, 1, ModifiersEnd(all, 1)))
    ensures !TouchesSession(all)
  {
    hide ObjectKind, AnyTemporary, ModifiersEnd;
    VerbsDiffer(verb);
  }

  /** The three verbs of an object are none of the others, nor each other. */
  lemma VerbsDiffer(verb: string)
    ensures verb == "ALTER" ==> |verb| == 5 && verb[0] == 'A'
    ensures verb == "DROP" ==> |verb| == 4
    ensures verb == "CREATE" ==> |verb| == 6
    ensures verb == "USE" || verb == "SET" ==> |verb| == 3
    ensures verb == "UNSET" ==> |verb| == 5 && verb[0] == 'U'
  {}

  /** A statement that starts with no word, a parenthesis or a string for instance, does nothing. */
  lemma WordlessDoesNothing(flags: Flags, autoCommit: bool, s: string)
    requires IsSingle(s) && s != "" && !IsWordChar(s[0]) && s[0] != ' ' && !(9 <= s[0] as int <= 13)
    requires |s| > 1 ==> var pair := s[..2]; pair != "--" && pair != "//" && pair != "/*"
    ensures Track(flags, autoCommit, s) == flags
  {
    hide Track, Statements, Kept;
    SingleEffect(flags, autoCommit, s);
    assert |s| > 1 ==> s[..2] == [s[0], s[1]];
    assert Words(s, 0) == [];
    TrackerProofs.KeptWords(Words(s, 0));
  }

  // ---------------------------------------------------------------- gaps and statements

  /** Between leading words stand blanks, and comments as the scanner ends them; nothing else is passed over. */
  lemma GapsAreBlanksAndComments(t: string, i: nat)
    requires i < |t|
    ensures var pair := if i + 1 < |t| then [t[i], t[i + 1]] else "";
            var comment := pair == "--" || pair == "//" || pair == "/*";
            GapNext(t, i) == if AreBlanks([t[i]]) then i + 1 else if comment then Skip(t, i) else i
  {
    assert AreBlanks([t[i]]) <==> IsSpace(t[i]) by {
      assert [t[i]][0] == t[i];
    }
  }

  /** The statements with a semicolon between every two. */
  function Joined(statements: seq<string>): string
    decreases |statements|
  {
    if statements == [] then ""
    else if |statements| == 1 then statements[0]
    else statements[0] + (";" + Joined(statements[1..]))
  }

  /** The split loses nothing: joined by semicolons the statements are the request. */
  lemma {:induction false} StatementsRejoin(s: string, start: nat)
    requires start <= |s|
    ensures Joined(Statements(s, start)) == s[start..]
    decreases |s| - start
  {
    hide StatementEnd;
    var e := StatementEnd(s, start);
    var statements := Statements(s, start);
    if e == |s| {
      assert s[start..e] == s[start..];
    } else {
      StatementsRejoin(s, e + 1);
      assert statements[1..] == Statements(s, e + 1);
      assert s[start..] == s[start..e] + (";" + s[e + 1..]);
    }
  }
}
