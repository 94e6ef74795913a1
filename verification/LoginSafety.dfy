/**
 What opening a connection leaves, against any answers and against an honest engine; and, with it,
 the whole life of a connection from its first request on.
 */
module LoginSafety {
  import opened CText
  import Scanner
  import opened Tracker
  import TrackerLaws
  import opened Session
  import opened SessionProofs
  import opened Engine
  import ContextSafety
  import ScopeSafety
  import opened Login

  // ---------------------------------------------------------------- an accepted name is only a name

  /** The scanner ends a quoted name where the check does. */
  lemma {:induction false} PairedQuotesEnd(s: string, i: nat, t: string, p: nat)
    requires 1 <= i <= |s| - 1 && s[|s| - 1] == '"' && QuotesPaired(s, i, |s| - 1)
    requires p + |s| - i == |t| && t[p..] == s[i..]
    ensures Scanner.IdentEnd(t, p) == |t|
    decreases |s| - i
  {
    assert forall k :: i <= k < |s| ==> s[k] == s[i..][k - i] == t[p..][k - i] == t[p + k - i];
    if i < |s| - 1 {
      var step := if s[i] == '"' then 2 else 1;
      assert t[p + step..] == t[p..][step..] == s[i..][step..] == s[i + step..];
      PairedQuotesEnd(s, i + step, t, p + step);
    }
  }

  predicate IsKind(kind: string) { kind != "" && forall i :: 0 <= i < |kind| ==> IsAlpha(kind[i]) }

  /** An accepted name cannot end its USE statement or start another: the request is one statement. */
  lemma UseIsOneStatement(kind: string, name: string)
    requires IsKind(kind) && IsIdentifier(name)
    ensures Statements(UseSql(kind, name), 0) == [UseSql(kind, name)]
  {
    var s := UseSql(kind, name);
    var before := "USE " + (kind + " ");
    assert s == before + name;
    forall i | 0 <= i < |before|
      ensures TrackerLaws.Quiet(s, i)
    {
      assert s[i] == before[i];
    }
    TrackerLaws.QuietRun(s, 0, |before|);
    NameToTheEnd(before, name);
    assert s[0..|s|] == s;
  }

  lemma NameToTheEnd(before: string, name: string)
    requires IsIdentifier(name)
    ensures StatementEnd(before + name, |before|) == |before + name|
  {
    var s := before + name;
    var c := |before|;
    assert forall i :: 0 <= i < |name| ==> s[c + i] == name[i];
    if name[0] == '"' {
      assert s[c + 1..] == name[1..];
      PairedQuotesEnd(name, 1, s, c + 1);
      assert Scanner.Skip(s, c) == |s|;
    } else {
      forall i | c <= i < |s|
        ensures TrackerLaws.Quiet(s, i)
      {
        assert s[i] == name[i - c] && (i > c ==> s[i - 1] == name[i - c - 1]);
      }
      TrackerLaws.QuietRun(s, c, |s|);
    }
  }

  lemma UseTracks(flags: Flags, kind: string, name: string)
    ensures Track(flags, true, UseSql(kind, name)).dirty && Track(flags, false, UseSql(kind, name)).dirty
  {
    TrackerLaws.UseTouches(flags, true, kind + (" " + name));
    TrackerLaws.UseTouches(flags, false, kind + (" " + name));
  }

  // ---------------------------------------------------------------- against any answers

  /** The most requests `uses` objects can take when `scope` entries are kept already. */
  function AtMost(uses: nat, scope: nat): nat {
    if uses == 0 then 0 else 4 * (scope + 1) + 2 + AtMost(uses - 1, scope + 1)
  }

  lemma {:induction false} AtMostGrows(uses: nat, a: nat, b: nat)
    requires a <= b
    ensures AtMost(uses, a) <= AtMost(uses, b)
    decreases uses
  {
    if uses > 0 {
      AtMostGrows(uses - 1, a + 1, b + 1);
    }
  }

  lemma UseObjectKeeps(h: Handle, f: Failure, script: Script, n: nat, u: Use)
    requires Consistent(h)
    ensures var r := UseObject(h, f, script, n, u);
            && Consistent(r.handle) && r.handle.autoCommit == h.autoCommit
            && r.handle.scope == h.scope + Entry(u)
            && (!r.result ==> r.failure.Failure?) && (r.result && f.Clean? ==> r.failure.Clean?)
            && |r.trace| <= 4 * (|h.scope| + 1) + 2
  {
    hide Execute, IsIdentifier, UseSql;
    if u.name.Some? && u.name.value != "" && IsIdentifier(u.name.value) {
      var sql := UseSql(u.kind, u.name.value);
      ExecuteKeeps(h.(scope := h.scope + [ScopeEntry(sql, u.required)]), f, script, n, sql, COUNT_UNSET);
    } else {
      EmptyIsNoIdentifier();
      assert h.scope + [] == h.scope;
    }
  }

  lemma EmptyIsNoIdentifier()
    ensures !IsIdentifier("")
  {}

  lemma {:induction false} UseAllKeeps(h: Handle, f: Failure, script: Script, n: nat, uses: seq<Use>)
    requires Consistent(h)
    ensures var r := UseAll(h, f, script, n, uses);
            && Consistent(r.handle) && r.handle.autoCommit == h.autoCommit
            && |r.handle.scope| <= |h.scope| + |uses|
            && (r.result ==> r.handle.scope == h.scope + Entries(uses))
            && (!r.result ==> r.failure.Failure?) && (r.result && f.Clean? ==> r.failure.Clean?)
            && |r.trace| <= AtMost(|uses|, |h.scope|)
    decreases |uses|
  {
    hide UseObject, IsIdentifier, UseSql, Consistent;
    if uses == [] {
      assert h.scope + [] == h.scope;
    } else {
      UseObjectKeeps(h, f, script, n, uses[0]);
      var r := UseObject(h, f, script, n, uses[0]);
      AtMostGrows(|uses| - 1, |r.handle.scope|, |h.scope| + 1);
      if r.result {
        UseAllKeeps(r.handle, r.failure, script, n + |r.trace|, uses[1..]);
        assert (h.scope + Entry(uses[0])) + Entries(uses[1..]) == h.scope + (Entry(uses[0]) + Entries(uses[1..]));
      }
    }
  }

  /** Whatever comes back, opening sends at most 48 requests and keeps at most four scope entries. */
  lemma ConnectKeeps(autoCommit: bool, script: Script, n: nat, healthy: bool, source: DataSource)
    ensures var r := Connect(autoCommit, script, n, healthy, source);
            && Consistent(r.handle) && r.handle.autoCommit == autoCommit
            && |r.handle.scope| <= SCOPE_MAX && |r.trace| <= 48
            && (r.result ==> r.handle.scope == Entries(Uses(source)) && r.handle.flags == NOTHING_HELD)
            && (r.result <==> r.failure.Clean?)
  {
    UseAllKeeps(Opened(autoCommit), Clean, script, n, Uses(source));
    assert AtMost(4, 0) == 6 + AtMost(3, 1) == 16 + AtMost(2, 2) == 30 + AtMost(1, 3) == 48 + AtMost(0, 4);
    assert [] + Entries(Uses(source)) == Entries(Uses(source));
  }

  // ---------------------------------------------------------------- against an honest engine

  predicate AnyRequired(scope: seq<ScopeEntry>) { exists i :: 0 <= i < |scope| && scope[i].required }

  /** A pass with nothing required never fails the way the engine refuses a statement. */
  lemma {:induction false} OptionalScopeIsNotRefused(h: Handle, f: Failure, script: Script, n: nat, i: nat,
                                                    restarted: bool)
    requires Consistent(h) && i <= |h.scope| && !AnyRequired(h.scope)
    ensures var r := ApplyScope(h, f, script, n, i, restarted);
            !r.result ==> r.failure.Failure? && r.failure.state != HY000
    decreases if restarted then 0 else 1, |h.scope| - i
  {
    hide Post, Consistent;
    if i < |h.scope| {
      var p := PostAt(h, f, script(n));
      PostKeeps(h, f, script(n).reply);
      match p.end {
        case Gone =>
          if !restarted {
            ForgetKeeps(p.handle);
            OptionalScopeIsNotRefused(Forget(p.handle), p.failure, script, n + 1, 0, true);
          }
        case Failed =>
          if p.failure.state == HY000 {
            OptionalScopeIsNotRefused(p.handle, Clean, script, n + 1, i + 1, restarted);
          }
        case Answer(_) =>
          OptionalScopeIsNotRefused(p.handle, p.failure, script, n + 1, i + 1, restarted);
      }
    }
  }

  /** A statement the engine refuses leaves its session held, the scope on it, if no entry is required. */
  lemma RefusedKeepsSession(h: Handle, used: set<string>, script: Script, n: nat, sql: string)
    requires InStep(h, used) && !h.scopePending && (AnyRequired(h.scope) ==> h.flags.dirty)
    requires Honest(used, SendStatement(h, Clean, script, n, sql, COUNT_UNSET).trace)
    ensures var r := SendStatement(h, Clean, script, n, sql, COUNT_UNSET);
            r.result.None? && r.failure.Failure? && r.failure.state == HY000 ==>
              !r.handle.scopePending && r.handle.sessionId.Some?
  {
    hide Post, Honours, RequestFor, Track, ApplyScope, InStep, AnyRequired, Honest;
    var r := SendStatement(h, Clean, script, n, sql, COUNT_UNSET);
    var x := Exchanged(h, Statement, sql, COUNT_UNSET, script(n));
    var p := PostAt(h, Clean, script(n));
    var rest := r.trace[1..];
    assert r.trace == [x] + rest;
    FirstStep(used, x, rest);
    HonestPost(h, Clean, used, sql, COUNT_UNSET, script(n));
    var used1 := Handed(used, script(n));
    var (h1, f1, again) := SessionLost(p.handle, p.failure);
    if p.end.Gone? && again {
      var s := ApplyWholeScope(h1, f1, script, n + 1);
      LostInStep(h, used1);
      ApplyScopeKeeps(h1, f1, script, n + 1, 0, false);
      OptionalScopeIsNotRefused(h1, f1, script, n + 1, 0, false);
      if s.result {
        var a := SendAgain(s.handle, s.failure, script, n + 1 + |s.trace|, sql, COUNT_UNSET);
        assert rest == s.trace + a.trace;
        HonestConcat(used1, s.trace, a.trace);
        ContextSafety.ApplyScopeHonest(h1, f1, used1, script, n + 1, 0, false);
        var used2 := HandedAfter(used1, s.trace);
        var y := Exchanged(s.handle, Statement, sql, COUNT_UNSET, script(n + 1 + |s.trace|));
        assert a.trace == [y] + [];
        FirstStep(used2, y, []);
        HonestPost(s.handle, s.failure, used2, sql, COUNT_UNSET, script(n + 1 + |s.trace|));
      }
    }
  }

  lemma LostInStep(h: Handle, used: set<string>)
    requires InStep(h, used) && h.sessionId.Some?
    ensures InStep(Forget(h), used) && Consistent(Forget(h)) && Forget(h).flags == NOTHING_HELD
  {}

  /**
   Between two USE statements of a login: nothing pending, a session once there is a scope, and
   `dirty` from the role on, so that a lost role is never put back silently.
   */
  predicate Joining(h: Handle, used: set<string>) {
    && InStep(h, used) && !h.scopePending && (h.sessionId.Some? || h.scope == [])
    && (AnyRequired(h.scope) ==> h.flags.dirty)
  }

  lemma UseObjectJoins(h: Handle, used: set<string>, script: Script, n: nat, u: Use)
    requires Joining(h, used) && Honest(used, UseObject(h, Clean, script, n, u).trace)
    ensures var r := UseObject(h, Clean, script, n, u);
            r.result ==> Joining(r.handle, HandedAfter(used, r.trace)) && r.failure.Clean?
  {
    hide Execute, IsIdentifier, UseSql, Honest, Track, Honours;
    if u.name.Some? && u.name.value != "" && IsIdentifier(u.name.value) {
      var sql := UseSql(u.kind, u.name.value);
      var h1 := h.(scope := h.scope + [ScopeEntry(sql, u.required)]);
      ContextSafety.ExecuteHonest(h1, Clean, used, script, n, sql, COUNT_UNSET);
      ExecuteKeeps(h1, Clean, script, n, sql, COUNT_UNSET);
      UseTracks(h1.flags, u.kind, u.name.value);
      OneMoreRequired(h.scope, ScopeEntry(sql, u.required));
      var r := Execute(h1, Clean, script, n, sql, COUNT_UNSET);
      if r.result.None? && !u.required {
        ExecuteIsSend(h1, script, n, sql);
        RefusedKeepsSession(h1, used, script, n, sql);
      }
    }
  }

  lemma ExecuteIsSend(h: Handle, script: Script, n: nat, sql: string)
    requires !h.scopePending
    ensures Execute(h, Clean, script, n, sql, COUNT_UNSET) == SendStatement(h, Clean, script, n, sql, COUNT_UNSET)
  {}

  lemma OneMoreRequired(scope: seq<ScopeEntry>, entry: ScopeEntry)
    ensures AnyRequired(scope + [entry]) <==> AnyRequired(scope) || entry.required
  {
    assert (scope + [entry])[|scope|] == entry;
    assert forall i :: 0 <= i < |scope| ==> (scope + [entry])[i] == scope[i];
  }

  lemma {:induction false} UseAllJoins(h: Handle, used: set<string>, script: Script, n: nat, uses: seq<Use>)
    requires Joining(h, used) && Honest(used, UseAll(h, Clean, script, n, uses).trace)
    ensures var r := UseAll(h, Clean, script, n, uses);
            r.result ==> Joining(r.handle, HandedAfter(used, r.trace))
    decreases |uses|
  {
    hide UseObject, Joining, Honest, HandedAfter;
    NothingHanded(used);
    if uses != [] {
      var r := UseObject(h, Clean, script, n, uses[0]);
      if r.result {
        HonestConcat(used, r.trace, UseAll(r.handle, r.failure, script, n + |r.trace|, uses[1..]).trace);
        UseObjectJoins(h, used, script, n, uses[0]);
        UseAllJoins(r.handle, HandedAfter(used, r.trace), script, n + |r.trace|, uses[1..]);
      }
    }
  }

  lemma NothingHanded(used: set<string>)
    ensures HandedAfter(used, []) == used
  {}

  /** An opened connection is in step with its engine, holds nothing, and owes its session nothing. */
  lemma ConnectIsReady(autoCommit: bool, used: set<string>, script: Script, n: nat, healthy: bool, source: DataSource)
    requires Honest(used, Connect(autoCommit, script, n, healthy, source).trace)
    ensures var r := Connect(autoCommit, script, n, healthy, source);
            r.result ==>
              && InStep(r.handle, HandedAfter(used, r.trace)) && r.handle.flags == NOTHING_HELD
              && !r.handle.scopePending && (r.handle.sessionId.Some? || r.handle.scope == [])
  {
    hide UseAll, Honest, HandedAfter;
    if healthy {
      assert !AnyRequired([]);
      UseAllJoins(Opened(autoCommit), used, script, n, Uses(source));
    }
  }

  /**
   The whole life of a connection, from its first request: for every data source, every engine that
   honours its contract and every run of calls, nothing runs off the session that holds what an
   acknowledged statement left, and every session started after the login has the data source's
   USE statements on it, in login order, before its first statement.
   */
  lemma ConnectionIsSafe(autoCommit: bool, used: set<string>, script: Script, n: nat, healthy: bool,
                         source: DataSource, calls: seq<Call>)
    requires var r := Connect(autoCommit, script, n, healthy, source);
             r.result && Honest(used, r.trace + Sent(RunCalls(r.handle, script, n + |r.trace|, calls)))
    ensures var r := Connect(autoCommit, script, n, healthy, source);
            var records := RunCalls(r.handle, script, n + |r.trace|, calls);
            && ContextSafety.SafeRun(ContextSafety.NO_HOLD, records, autoCommit)
            && forall id :: id !in HandedAfter(used, r.trace) ==>
                 ScopeSafety.StartsOnScope(ScopeSafety.History(Sent(records), id), Entries(Uses(source)))
  {
    hide Connect, Uses, Entries, ContextSafety.SafeRun, ScopeSafety.StartsOnScope, ScopeSafety.History, InStep,
      RunCalls, Sent, Honest, HandedAfter;
    var r := Connect(autoCommit, script, n, healthy, source);
    var first := n + |r.trace|;
    var used1 := HandedAfter(used, r.trace);
    HonestConcat(used, r.trace, Sent(RunCalls(r.handle, script, first, calls)));
    ConnectIsReady(autoCommit, used, script, n, healthy, source);
    ConnectKeeps(autoCommit, script, n, healthy, source);
    ContextSafety.ContextSafety(r.handle, used1, script, first, calls);
    forall id | id !in used1
      ensures ScopeSafety.StartsOnScope(ScopeSafety.History(Sent(RunCalls(r.handle, script, first, calls)), id),
                                        Entries(Uses(source)))
    {
      ScopeSafety.ReplacementsStartOnScope(r.handle, used1, script, first, calls, id);
    }
  }
}
