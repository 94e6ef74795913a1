/**
 How a connection opens, as src/frostlake_driver.c does it: the data source's role, warehouse,
 database and schema become USE statements, each kept as an entry of the scope before it is sent.
 */
module Login {
  import opened CText
  import opened Tracker
  import opened Session

  // ---------------------------------------------------------------- identifiers

  /** Every double quote in `s[i..end]` is one of a pair. */
  predicate QuotesPaired(s: string, i: nat, end: nat)
    requires end <= |s|
    decreases end - i
  {
    if i >= end then true
    else if s[i] == '"' then i + 1 < end && s[i + 1] == '"' && QuotesPaired(s, i + 2, end)
    else QuotesPaired(s, i + 1, end)
  }

  predicate IdentifierByte(c: char) { IsAlnum(c) || c == '_' || c == '$' }

  /** pdo_frostlake_is_identifier. */
  predicate IsIdentifier(text: string) {
    text != "" &&
    if text[0] == '"' then |text| >= 3 && text[|text| - 1] == '"' && QuotesPaired(text, 1, |text| - 1)
    else (IsAlpha(text[0]) || text[0] == '_') && forall i :: 1 <= i < |text| ==> IdentifierByte(text[i])
  }

  method CheckIdentifier(text: string) returns (accepted: bool)
    ensures accepted == IsIdentifier(text)
  {
    var length := |text|;
    if length == 0 {
      return false;
    }
    if text[0] == '"' {
      if length < 3 || text[length - 1] != '"' {
        return false;
      }
      var i := 1;
      while i < length - 1
        invariant 1 <= i <= length - 1
        invariant QuotesPaired(text, i, length - 1) == QuotesPaired(text, 1, length - 1)
      {
        if text[i] == '"' {
          if i + 1 >= length - 1 || text[i + 1] != '"' {
            return false;
          }
          i := i + 1;
        }
        i := i + 1;
      }
      return true;
    }
    if !(IsAlpha(text[0]) || text[0] == '_') {
      return false;
    }
    for i := 1 to length
      invariant forall k :: 1 <= k < i ==> IdentifierByte(text[k])
    {
      if !(IsAlnum(text[i]) || text[i] == '_' || text[i] == '$') {
        return false;
      }
    }
    return true;
  }

  // ---------------------------------------------------------------- the data source's USE statements

  /** The objects a data source names; an absent one is not asked for. */
  datatype DataSource = DataSource(
    role: Option<string>,
    warehouse: Option<string>,
    database: Option<string>,
    schema: Option<string>)

  /** One object to select, and whether the connection is refused without it. */
  datatype Use = Use(kind: string, name: Option<string>, required: bool)

  /** In the order a login applies them: the role decides what the rest may use. */
  function Uses(source: DataSource): seq<Use> {
    [Use("ROLE", source.role, true), Use("WAREHOUSE", source.warehouse, false),
     Use("DATABASE", source.database, false), Use("SCHEMA", source.schema, false)]
  }

  function UseSql(kind: string, name: string): string { "USE " + (kind + (" " + name)) }

  /** use_object; the answer is false when the connection has to be refused. */
  function UseObject(h: Handle, f: Failure, script: Script, n: nat, u: Use): Run<bool> {
    if u.name.None? || u.name.value == "" then Run(h, f, [], true)
    else if !IsIdentifier(u.name.value) then
      Run(h, if u.required then Failure(S08001, NotAnIdentifier(u.kind, u.name.value)) else f, [], !u.required)
    else
      var sql := UseSql(u.kind, u.name.value);
      var r := Execute(h.(scope := h.scope + [ScopeEntry(sql, u.required)]), f, script, n, sql, COUNT_UNSET);
      if r.result.Some? then Run(r.handle, r.failure, r.trace, true)
      else if r.failure.Failure? && r.failure.state == HY000 && !u.required then Run(r.handle, Clean, r.trace, true)
      else Run(r.handle, r.failure, r.trace, false)
  }

  function UseAll(h: Handle, f: Failure, script: Script, n: nat, uses: seq<Use>): Run<bool>
    decreases |uses|
  {
    if uses == [] then Run(h, f, [], true)
    else
      var r := UseObject(h, f, script, n, uses[0]);
      if !r.result then r
      else UseAll(r.handle, r.failure, script, n + |r.trace|, uses[1..]).After(r.trace)
  }

  /** The handle as it is allocated: zeroed, nothing known of the engine. */
  function Opened(autoCommit: bool): Handle { Handle(None, -1, NOTHING_HELD, [], false, autoCommit) }

  /** pdo_frostlake_handle_factory after the port is read; `healthy` is what the health check answers. */
  function Connect(autoCommit: bool, script: Script, n: nat, healthy: bool, source: DataSource): Run<bool> {
    if !healthy then Run(Opened(autoCommit), Failure(S08001, Unhealthy), [], false)
    else
      var r := UseAll(Opened(autoCommit), Clean, script, n, Uses(source));
      if r.result then r.(handle := r.handle.(flags := NOTHING_HELD)) else r
  }

  /** The entry an object adds to the scope, if it is named and could name something. */
  function Entry(u: Use): seq<ScopeEntry> {
    if u.name.Some? && IsIdentifier(u.name.value) then [ScopeEntry(UseSql(u.kind, u.name.value), u.required)] else []
  }

  /** What the scope of an opened connection holds, in login order. */
  function Entries(uses: seq<Use>): seq<ScopeEntry>
    decreases |uses|
  {
    if uses == [] then [] else Entry(uses[0]) + Entries(uses[1..])
  }
}
