/**
 The session tracker of src/frostlake_sql.c: what an acknowledged request leaves on its session.
 The specification reads a statement's full, uncut list of leading words; `Kept` is what the
 source's word buffers hold of it (31 characters of each of 16 words), and `Track` folds one effect
 per statement over the request's top-level split. The methods at the end are the source's walks.
 */
module Tracker {
  import opened CText
  import opened Scanner

  /** What a session holds that a fresh one would not. */
  datatype Flags = Flags(dirty: bool, inTransaction: bool) {
    predicate Any() { dirty || inTransaction }
  }

  const NOTHING_HELD := Flags(false, false)

  // ---------------------------------------------------------------- leading words

  predicate IsWordByte(c: char) { IsAlnum(c) || c == '_' || c == '$' || c as int >= 0x80 }

  /** Past the run of word bytes at `i`. */
  function WordEnd(t: string, i: nat): (r: nat)
    requires i <= |t|
    ensures i <= r <= |t|
    ensures i < |t| && IsWordByte(t[i]) ==> i < r
    decreases |t| - i
  {
    if i < |t| && IsWordByte(t[i]) then WordEnd(t, i + 1) else i
  }

  /** Past the blank or comment at `i`, or `i` itself when there is none. */
  function GapNext(t: string, i: nat): (r: nat)
    requires i < |t|
    ensures i <= r <= |t|
  {
    if IsSpace(t[i]) then i + 1
    else if OpensLine(t, i) then LineEnd(t, i + 2)
    else if OpensBlock(t, i) then PairEnd(t, i + 2, '*', '/')
    else i
  }

  /** All leading words of a statement, upper-cased, blanks and comments between them skipped. */
  function Words(t: string, i: nat): seq<string>
    requires i <= |t|
    decreases |t| - i
  {
    if i == |t| then []
    else if GapNext(t, i) > i then Words(t, GapNext(t, i))
    else if IsWordByte(t[i]) then [Upper(t[i..WordEnd(t, i)])] + Words(t, WordEnd(t, i))
    else []
  }

  // ---------------------------------------------------------------- what one statement does

  const OBJECT_MODIFIERS: seq<string> := [
    "OR", "REPLACE", "TRANSIENT", "TEMPORARY", "TEMP", "VOLATILE", "LOCAL", "GLOBAL", "SECURE", "IF",
    "NOT", "EXISTS", "PUBLIC", "PRIVATE", "ICEBERG", "DYNAMIC", "HYBRID", "EVENT", "RECURSIVE",
    "MATERIALIZED", "EXTERNAL"]

  const TEMPORARY_MODIFIERS: seq<string> := ["TEMPORARY", "TEMP", "VOLATILE"]

  /** Past the object modifiers that stand at `i`. */
  function ModifiersEnd(words: seq<string>, i: nat): (r: nat)
    requires i <= |words|
    ensures i <= r <= |words|
    ensures forall k :: i <= k < r ==> words[k] in OBJECT_MODIFIERS
    ensures r < |words| ==> words[r] !in OBJECT_MODIFIERS
    decreases |words| - i
  {
    if i < |words| && words[i] in OBJECT_MODIFIERS then ModifiersEnd(words, i + 1) else i
  }

  predicate AnyTemporary(words: seq<string>, i: nat, j: nat)
    requires i <= j <= |words|
  {
    exists k :: i <= k < j && words[k] in TEMPORARY_MODIFIERS
  }

  /** The word that names the kind of object after CREATE, DROP or ALTER, or the empty word. */
  function ObjectKind(words: seq<string>): string
    requires |words| > 0
  {
    var k := ModifiersEnd(words, 1);
    if k < |words| then words[k] else ""
  }

  predicate TouchesSession(words: seq<string>) {
    |words| > 0 &&
    var verb := words[0];
    || verb == "USE" || verb == "SET" || verb == "UNSET"
    || (verb == "ALTER" && ObjectKind(words) == "SESSION")
    || ((verb == "CREATE" || verb == "DROP")
        && (ObjectKind(words) == "DATABASE" || ObjectKind(words) == "SCHEMA"))
    || (verb == "CREATE" && AnyTemporary(words, 1, ModifiersEnd(words, 1)))
  }

  predicate OpensTransaction(words: seq<string>) {
    |words| > 0 &&
    ( || (words[0] == "START" && |words| > 1 && words[1] == "TRANSACTION")
      || (words[0] == "BEGIN"
          && (|words| == 1 || words[1] == "TRANSACTION" || words[1] == "WORK" || words[1] == "NAME")))
  }

  predicate EndsTransaction(words: seq<string>) {
    |words| > 0 && (words[0] == "COMMIT" || words[0] == "ROLLBACK")
  }

  /** What a statement with these leading words does to the flags. */
  function Effect(flags: Flags, autoCommit: bool, words: seq<string>): Flags {
    Flags(
      flags.dirty || TouchesSession(words),
      if EndsTransaction(words) then false
      else flags.inTransaction || OpensTransaction(words) || (!autoCommit && |words| > 0))
  }

  // ---------------------------------------------------------------- the bounded words

  const SESSION_WORDS := 16
  const SESSION_WORD_MAX := 32

  /** A word as its buffer holds it. */
  function Cut(w: string): string {
    if |w| <= SESSION_WORD_MAX - 1 then w else w[..SESSION_WORD_MAX - 1]
  }

  function CutAll(words: seq<string>): (r: seq<string>)
    ensures |r| == |words|
    ensures forall i :: 0 <= i < |words| ==> r[i] == Cut(words[i])
  {
    seq(|words|, i requires 0 <= i < |words| => Cut(words[i]))
  }

  /** The words the source keeps of a statement's full list. */
  function Kept(words: seq<string>): (r: seq<string>)
    ensures |r| == if |words| <= SESSION_WORDS then |words| else SESSION_WORDS
    ensures forall i :: 0 <= i < |r| ==> r[i] == Cut(words[i])
  {
    CutAll(if |words| <= SESSION_WORDS then words else words[..SESSION_WORDS])
  }

  // ---------------------------------------------------------------- a request, statement by statement

  /** The first top-level semicolon at or after `c`, or the end of the text. */
  function StatementEnd(s: string, c: nat): (r: nat)
    requires c <= |s|
    ensures c <= r <= |s|
    ensures r < |s| ==> s[r] == ';'
    decreases |s| - c
  {
    if c == |s| then c
    else if Skip(s, c) > c then StatementEnd(s, Skip(s, c))
    else if s[c] == ';' then c
    else StatementEnd(s, c + 1)
  }

  /** The statements of the request from `start` on, split at its top-level semicolons. */
  function Statements(s: string, start: nat): (r: seq<string>)
    requires start <= |s|
    ensures |r| > 0
    decreases |s| - start
  {
    var e := StatementEnd(s, start);
    if e == |s| then [s[start..e]] else [s[start..e]] + Statements(s, e + 1)
  }

  /** One statement's effect, read from the words the source keeps of it. */
  function StatementEffect(flags: Flags, autoCommit: bool, statement: string): Flags {
    Effect(flags, autoCommit, Kept(Words(statement, 0)))
  }

  function Fold(flags: Flags, autoCommit: bool, statements: seq<string>): Flags
    decreases |statements|
  {
    if statements == [] then flags
    else Fold(StatementEffect(flags, autoCommit, statements[0]), autoCommit, statements[1..])
  }

  /** The flags after an acknowledged request. */
  function Track(flags: Flags, autoCommit: bool, sql: string): Flags {
    Fold(flags, autoCommit, Statements(sql, 0))
  }

  /** The same reading with every word of every statement, none cut short. */
  function FullFold(flags: Flags, autoCommit: bool, statements: seq<string>): Flags
    decreases |statements|
  {
    if statements == [] then flags
    else FullFold(Effect(flags, autoCommit, Words(statements[0], 0)), autoCommit, statements[1..])
  }

  function FullTrack(flags: Flags, autoCommit: bool, sql: string): Flags {
    FullFold(flags, autoCommit, Statements(sql, 0))
  }

  // ---------------------------------------------------------------- the source's walks

  /** One word of leading_words: read whole, kept up to the buffer's size. */
  method ReadWord(t: string, from: nat) returns (word: string, c: nat)
    requires from <= |t|
    ensures c == WordEnd(t, from)
    ensures word == Cut(Upper(t[from..c]))
  {
    word, c := [], from;
    while c < |t| && IsWordByte(t[c])
      invariant from <= c <= |t|
      invariant WordEnd(t, c) == WordEnd(t, from)
      invariant word == Cut(Upper(t[from..c]))
    {
      assert Upper(t[from..c + 1]) == Upper(t[from..c]) + [ToUpper(t[c])];
      if |word| + 1 < SESSION_WORD_MAX {
        word := word + [ToUpper(t[c])];
      }
      c := c + 1;
    }
  }

  /** leading_words on the statement `t`. */
  method LeadingWords(t: string) returns (words: seq<string>)
    ensures words == Kept(Words(t, 0))
  {
    var c, end := 0, |t|;
    words := [];
    ghost var read: seq<string> := [];
    while |words| < SESSION_WORDS && c < end
      invariant 0 <= c <= end
      invariant |read| <= SESSION_WORDS && words == CutAll(read)
      invariant read + Words(t, c) == Words(t, 0)
    {
      if IsSpace(t[c]) {
        c := c + 1;
      } else if c + 1 < end && ((t[c] == '-' && t[c + 1] == '-') || (t[c] == '/' && t[c + 1] == '/')) {
        c := FindNewline(t, c + 2);
      } else if c + 1 < end && t[c] == '/' && t[c + 1] == '*' {
        c := FindPair(t, c + 2, '*', '/');
      } else if IsWordByte(t[c]) {
        ghost var from := c;
        var word;
        word, c := ReadWord(t, c);
        ghost var full := Upper(t[from..c]);
        assert read + Words(t, from) == (read + [full]) + Words(t, c);
        assert CutAll(read + [full]) == CutAll(read) + [word];
        read, words := read + [full], words + [word];
      } else {
        assert Words(t, c) == [];
        break;
      }
    }
    if |words| < SESSION_WORDS {
      assert Words(t, c) == [];
      assert read + [] == read;
    } else {
      assert (read + Words(t, c))[..SESSION_WORDS] == read;
      assert |Words(t, 0)| == SESSION_WORDS ==> Words(t, 0) == read;
    }
  }

  /** is_one_of. */
  method IsOneOf(word: string, set_: seq<string>) returns (found: bool)
    ensures found == (word in set_)
  {
    for i := 0 to |set_|
      invariant word !in set_[..i]
    {
      if word == set_[i] {
        return true;
      }
    }
    return false;
  }

  /** touches_session on the words it is given. */
  method ReadTouchesSession(words: seq<string>) returns (touches: bool)
    ensures touches == TouchesSession(words)
  {
    if |words| == 0 {
      return false;
    }
    var verb := words[0];
    if verb == "USE" || verb == "SET" || verb == "UNSET" {
      return true;
    }
    var alter := verb == "ALTER";
    var create := verb == "CREATE";
    if !alter && !create && verb != "DROP" {
      return false;
    }
    var i, temporary := 1, false;
    while i < |words|
      invariant 1 <= i <= |words|
      invariant ModifiersEnd(words, i) == ModifiersEnd(words, 1)
      invariant temporary == AnyTemporary(words, 1, i)
    {
      var modifier := IsOneOf(words[i], OBJECT_MODIFIERS);
      if !modifier {
        break;
      }
      var temp := IsOneOf(words[i], TEMPORARY_MODIFIERS);
      assert temp ==> AnyTemporary(words, 1, i + 1);
      temporary := temporary || temp;
      i := i + 1;
    }
    var kind := if i < |words| then words[i] else "";
    assert kind == ObjectKind(words);
    if alter {
      return kind == "SESSION";
    }
    return kind == "DATABASE" || kind == "SCHEMA" || (create && temporary);
  }

  /** transaction_effect: 1 opens a transaction, -1 ends one. */
  method TransactionEffect(words: seq<string>) returns (effect: int)
    ensures effect == if EndsTransaction(words) then -1 else if OpensTransaction(words) then 1 else 0
  {
    if |words| == 0 {
      return 0;
    }
    if words[0] == "COMMIT" || words[0] == "ROLLBACK" {
      return -1;
    }
    if words[0] == "START" {
      return if |words| > 1 && words[1] == "TRANSACTION" then 1 else 0;
    }
    if words[0] != "BEGIN" {
      return 0;
    }
    return if |words| == 1 || words[1] == "TRANSACTION" || words[1] == "WORK" || words[1] == "NAME"
      then 1 else 0;
  }
}
