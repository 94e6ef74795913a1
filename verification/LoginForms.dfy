/** Which USE statements a login sends, for which names, and what refuses the connection, in plain words. */
module LoginForms {
  import opened CText
  import opened Session
  import opened Login
  import LoginSafety
  import ScannerForms

  // ---------------------------------------------------------------- names

  predicate IsLetter(c: char) { 'a' <= c <= 'z' || 'A' <= c <= 'Z' || c == '_' }

  /** An unquoted name: a letter or underscore, then letters, digits, underscores and dollar signs. */
  lemma UnquotedNames(text: string)
    requires text == "" || text[0] != '"'
    ensures IsIdentifier(text)
            <==> && text != "" && IsLetter(text[0])
                 && forall i :: 1 <= i < |text| ==> IsLetter(text[i]) || '0' <= text[i] <= '9' || text[i] == '$'
  {}

  predicate ArePieces(pieces: seq<ScannerForms.NamePiece>) { forall p :: p in pieces ==> ScannerForms.IsNamePiece(p) }

  /** A quoted name: one or more pieces between double quotes. */
  predicate IsQuoted(text: string, pieces: seq<ScannerForms.NamePiece>) {
    pieces != [] && ArePieces(pieces) && text == "\"" + (ScannerForms.NameText(pieces) + "\"")
  }

  function PiecesOf(s: string, i: nat, end: nat): seq<ScannerForms.NamePiece>
    requires i <= end <= |s| && QuotesPaired(s, i, end)
    decreases end - i
  {
    if i == end then []
    else if s[i] == '"' then [ScannerForms.TwoDoubleQuotes] + PiecesOf(s, i + 2, end)
    else [ScannerForms.Letter(s[i])] + PiecesOf(s, i + 1, end)
  }

  lemma {:induction false} PiecesSpell(s: string, i: nat, end: nat)
    requires i <= end <= |s| && QuotesPaired(s, i, end)
    ensures ArePieces(PiecesOf(s, i, end)) && ScannerForms.NameText(PiecesOf(s, i, end)) == s[i..end]
    ensures i < end ==> PiecesOf(s, i, end) != []
    decreases end - i
  {
    if i < end {
      var step := if s[i] == '"' then 2 else 1;
      PiecesSpell(s, i + step, end);
      var pieces := PiecesOf(s, i, end);
      assert pieces[1..] == PiecesOf(s, i + step, end);
      assert s[i..end] == s[i..i + step] + s[i + step..end];
    }
  }

  lemma {:induction false} PiecesArePaired(pieces: seq<ScannerForms.NamePiece>, s: string, i: nat, end: nat)
    requires ArePieces(pieces) && i <= end <= |s| && s[i..end] == ScannerForms.NameText(pieces)
    ensures QuotesPaired(s, i, end)
    decreases |pieces|
  {
    if pieces != [] {
      var text := ScannerForms.NamePieceText(pieces[0]);
      assert pieces[0] in pieces;
      assert s[i..end] == text + ScannerForms.NameText(pieces[1..]);
      assert s[i] == s[i..end][0] && (|text| == 2 ==> s[i + 1] == s[i..end][1]);
      assert s[i + |text|..end] == s[i..end][|text|..];
      PiecesArePaired(pieces[1..], s, i + |text|, end);
    }
  }

  /** A text in double quotes is accepted exactly when it is a quoted name. */
  lemma QuotedNames(text: string)
    requires text != "" && text[0] == '"'
    ensures IsIdentifier(text) <==> exists pieces :: IsQuoted(text, pieces)
  {
    if IsIdentifier(text) {
      var end := |text| - 1;
      PiecesSpell(text, 1, end);
      assert text == "\"" + (text[1..end] + "\"");
      assert IsQuoted(text, PiecesOf(text, 1, end));
    }
    if pieces :| IsQuoted(text, pieces) {
      var inner := ScannerForms.NameText(pieces);
      assert text[1..|text| - 1] == inner && |inner| > 0;
      PiecesArePaired(pieces, text, 1, |text| - 1);
    }
  }

  // ---------------------------------------------------------------- the scope

  /** The entry of one object of the data source. */
  function Asked(kind: string, name: Option<string>, required: bool): seq<ScopeEntry> {
    if name.Some? && IsIdentifier(name.value) then [ScopeEntry("USE " + (kind + (" " + name.value)), required)] else []
  }

  /** The scope of an open connection: the role, which is required, the warehouse, the database, the schema. */
  lemma ScopeOfConnection(autoCommit: bool, script: Script, n: nat, healthy: bool, source: DataSource)
    ensures var r := Connect(autoCommit, script, n, healthy, source);
            r.result ==>
              r.handle.scope == Asked("ROLE", source.role, true)
                                + (Asked("WAREHOUSE", source.warehouse, false)
                                   + (Asked("DATABASE", source.database, false)
                                      + Asked("SCHEMA", source.schema, false)))
  {
    hide IsIdentifier, Connect, Entries;
    LoginSafety.ConnectKeeps(autoCommit, script, n, healthy, source);
    var role, warehouse := Use("ROLE", source.role, true), Use("WAREHOUSE", source.warehouse, false);
    var database, schema := Use("DATABASE", source.database, false), Use("SCHEMA", source.schema, false);
    assert Uses(source) == [role] + ([warehouse] + ([database] + ([schema] + [])));
    OneMoreUse(role, [warehouse] + ([database] + ([schema] + [])));
    OneMoreUse(warehouse, [database] + ([schema] + []));
    OneMoreUse(database, [schema] + []);
    OneMoreUse(schema, []);
    NoUse();
    assert Entry(schema) + [] == Entry(schema);
  }

  lemma OneMoreUse(u: Use, rest: seq<Use>)
    ensures Entries([u] + rest) == Entry(u) + Entries(rest)
  {
    assert ([u] + rest)[1..] == rest;
  }

  lemma NoUse()
    ensures Entries([]) == []
  {}

  // ---------------------------------------------------------------- refusals

  /** An unhealthy server, or a role that can name nothing, refuses the connection before any request. */
  lemma RefusedUnasked(autoCommit: bool, script: Script, n: nat, healthy: bool, source: DataSource)
    requires !healthy || (source.role.Some? && source.role.value != "" && !IsIdentifier(source.role.value))
    ensures var r := Connect(autoCommit, script, n, healthy, source);
            !r.result && r.trace == [] && r.failure.Failure? && r.failure.state == S08001
  {
    hide IsIdentifier;
  }

  /** A role the engine does not accept, whatever the reason, refuses the connection with that failure. */
  lemma RefusedRole(autoCommit: bool, script: Script, n: nat, source: DataSource, sql: string)
    requires source.role.Some? && IsIdentifier(source.role.value) && sql == "USE ROLE " + source.role.value
    requires var h := Opened(autoCommit).(scope := [ScopeEntry(sql, true)]);
             Execute(h, Clean, script, n, sql, COUNT_UNSET).result.None?
    ensures var h := Opened(autoCommit).(scope := [ScopeEntry(sql, true)]);
            var e := Execute(h, Clean, script, n, sql, COUNT_UNSET);
            var r := Connect(autoCommit, script, n, true, source);
            !r.result && r.failure == e.failure && r.trace == e.trace
  {
    hide Execute, IsIdentifier;
    EmptyIsNoName(source.role.value);
    assert UseSql("ROLE", source.role.value) == sql;
    assert [] + [ScopeEntry(sql, true)] == [ScopeEntry(sql, true)];
  }

  lemma EmptyIsNoName(name: string)
    requires IsIdentifier(name)
    ensures name != ""
  {}

  /** An object that is not required may be refused as a statement; any other failure refuses the connection. */
  lemma OptionalObject(h: Handle, script: Script, n: nat, kind: string, name: string, sql: string)
    requires IsIdentifier(name) && sql == "USE " + (kind + (" " + name))
    ensures var h1 := h.(scope := h.scope + [ScopeEntry(sql, false)]);
            var e := Execute(h1, Clean, script, n, sql, COUNT_UNSET);
            var r := UseObject(h, Clean, script, n, Use(kind, Some(name), false));
            && r.handle == e.handle && r.trace == e.trace
            && (r.result <==> e.result.Some? || (e.failure.Failure? && e.failure.state == HY000))
            && (!r.result ==> r.failure == e.failure)
  {
    hide Execute, IsIdentifier;
    EmptyIsNoName(name);
  }
}
