/**
 The login's own session. However often it was lost and replaced on the way, the session a login
 leaves has run every USE statement of the scope, in login order, each accepted or tolerably refused.
 */
module LoginScope {
  import opened CText
  import opened Tracker
  import opened Session
  import SessionProofs
  import opened Engine
  import ContextSafety
  import opened ScopeSafety
  import opened Login
  import LoginSafety

  /** The engine accepted this entry, or refused one it may refuse as it refuses a statement. */
  predicate Took(x: Exchange, entry: ScopeEntry) {
    && x.request.sql == entry.sql && x.moment.reply.Reply?
    && (x.moment.reply.success
        || (!entry.required && (x.moment.reply.status == 200 || x.moment.reply.status == 400)))
  }

  /** Every entry was taken, in this order, other requests between them or not. */
  predicate InOrder(history: seq<Exchange>, scope: seq<ScopeEntry>)
    decreases |history|
  {
    scope == [] ||
    ( && history != []
      && var (before, last) := (history[..|history| - 1], history[|history| - 1]);
         || InOrder(before, scope)
         || (Took(last, scope[|scope| - 1]) && InOrder(before, scope[..|scope| - 1])))
  }

  lemma OneLater(history: seq<Exchange>, scope: seq<ScopeEntry>, x: Exchange)
    requires InOrder(history, scope)
    ensures InOrder(history + [x], scope)
  {
    assert (history + [x])[..|history|] == history;
  }

  lemma OneTaken(history: seq<Exchange>, scope: seq<ScopeEntry>, x: Exchange, entry: ScopeEntry)
    requires InOrder(history, scope) && Took(x, entry)
    ensures InOrder(history + [x], scope + [entry])
  {
    hide Took;
    assert (history + [x])[..|history|] == history && (scope + [entry])[..|scope|] == scope;
  }

  /** The session the handle is on has taken this much of the scope after these requests. */
  predicate Covers(h: Handle, sent: seq<Exchange>, scope: seq<ScopeEntry>) {
    scope == [] || (h.sessionId.Some? && InOrder(History(sent, h.sessionId.value), scope))
  }

  /** A USE that the engine answers, or refuses tolerably, covers one entry more. */
  lemma PostCovers(h: Handle, f: Failure, used: set<string>, x: Exchange, entry: ScopeEntry, sent: seq<Exchange>,
                   scope: seq<ScopeEntry>)
    requires InStep(h, used) && Honours(used, x.request, x.moment)
    requires x.request == RequestFor(h, entry.sql, COUNT_UNSET) && Covers(h, sent, scope)
    requires var p := PostAt(h, f, x.moment);
             p.end.Answer? || (p.end.Failed? && p.failure.state == HY000 && !entry.required)
    ensures Covers(PostAt(h, f, x.moment).handle, sent + [x], scope + [entry])
  {
    hide InOrder, Post, Honours, InStep;
    HonestPost(h, f, used, entry.sql, COUNT_UNSET, x.moment);
    PostTook(h, f, x, entry);
    var id := PostAt(h, f, x.moment).handle.sessionId.value;
    HistoryConcat(sent, [x], id);
    OneInHistory(x, id);
    if scope == [] {
      NothingToTake(History(sent, id));
    }
    OneTaken(History(sent, id), scope, x, entry);
  }

  lemma NothingToTake(history: seq<Exchange>)
    ensures InOrder(history, [])
  {}

  lemma OneInHistory(x: Exchange, id: string)
    ensures History([x], id) == if x.moment.ran == Some(id) then [x] else []
  {
    assert [x][1..] == [];
  }

  lemma PostTook(h: Handle, f: Failure, x: Exchange, entry: ScopeEntry)
    requires x.request.sql == entry.sql
    requires var p := PostAt(h, f, x.moment);
             p.end.Answer? || (p.end.Failed? && p.failure.Failure? && p.failure.state == HY000 && !entry.required)
    ensures Took(x, entry)
  {}

  /** A pass over the scope covers all of it, wherever it started and however it was interrupted. */
  lemma {:induction false} PassCovers(h: Handle, f: Failure, used: set<string>, script: Script, n: nat, i: nat,
                                     restarted: bool, sent: seq<Exchange>)
    requires i <= |h.scope| && InStep(h, used) && h.flags == NOTHING_HELD && Covers(h, sent, h.scope[..i])
    requires Honest(used, ApplyScope(h, f, script, n, i, restarted).trace)
    ensures var r := ApplyScope(h, f, script, n, i, restarted);
            r.result ==> Covers(r.handle, sent + r.trace, h.scope)
    decreases if restarted then 0 else 1, |h.scope| - i
  {
    hide Post, Honours, RequestFor, Track, Covers, Honest, HandedAfter;
    var r := ApplyScope(h, f, script, n, i, restarted);
    if i == |h.scope| {
      assert h.scope[..i] == h.scope && sent + [] == sent;
      PendingIsNothing(h, sent, h.scope);
    } else {
      var x := Exchanged(h, Scope(i), h.scope[i].sql, COUNT_UNSET, script(n));
      var p := PostAt(h, f, script(n));
      var rest := r.trace[1..];
      assert r.trace == [x] + rest && x.request == RequestFor(h, h.scope[i].sql, COUNT_UNSET);
      FirstStep(used, x, rest);
      HonestPost(h, f, used, h.scope[i].sql, COUNT_UNSET, script(n));
      var used1, now := Handed(used, script(n)), sent + [x];
      assert sent + r.trace == now + rest;
      assert h.scope[..i] + [h.scope[i]] == h.scope[..i + 1];
      match p.end {
        case Gone =>
          if !restarted {
            ForgetInStep(p.handle, used1);
            NothingCovered(Forget(p.handle), now);
            assert rest == ApplyScope(Forget(p.handle), p.failure, script, n + 1, 0, true).trace;
            PassCovers(Forget(p.handle), p.failure, used1, script, n + 1, 0, true, now);
          }
        case Failed =>
          if !h.scope[i].required && p.failure.state == HY000 {
            PostCovers(h, f, used, x, h.scope[i], sent, h.scope[..i]);
            assert rest == ApplyScope(p.handle, Clean, script, n + 1, i + 1, restarted).trace;
            PassCovers(p.handle, Clean, used1, script, n + 1, i + 1, restarted, now);
          }
        case Answer(_) =>
          PostCovers(h, f, used, x, h.scope[i], sent, h.scope[..i]);
          assert rest == ApplyScope(p.handle, p.failure, script, n + 1, i + 1, restarted).trace;
          PassCovers(p.handle, p.failure, used1, script, n + 1, i + 1, restarted, now);
      }
    }
  }

  lemma NothingCovered(h: Handle, sent: seq<Exchange>)
    ensures Covers(h, sent, h.scope[..0])
  {}

  lemma PendingIsNothing(h: Handle, sent: seq<Exchange>, scope: seq<ScopeEntry>)
    ensures Covers(h.(scopePending := false), sent, scope) == Covers(h, sent, scope)
  {}

  /** A USE of the login: the last entry of the handle's scope, the others covered before. */
  lemma SendCovers(h: Handle, used: set<string>, script: Script, n: nat, scope: seq<ScopeEntry>, entry: ScopeEntry,
                   sent: seq<Exchange>)
    requires InStep(h, used) && !h.scopePending && h.scope == scope + [entry] && Covers(h, sent, scope)
    requires Honest(used, SendStatement(h, Clean, script, n, entry.sql, COUNT_UNSET).trace)
    ensures var r := SendStatement(h, Clean, script, n, entry.sql, COUNT_UNSET);
            r.result.Some? || (r.failure.Failure? && r.failure.state == HY000 && !entry.required) ==>
              Covers(r.handle, sent + r.trace, scope + [entry])
              || (r.result.None? && (r.handle.scopePending || r.handle.sessionId.None?))
  {
    hide Post, Honours, RequestFor, Track, ApplyScope, SendAgain, InStep, Covers, Honest, HandedAfter;
    var r := SendStatement(h, Clean, script, n, entry.sql, COUNT_UNSET);
    var x := Exchanged(h, Statement, entry.sql, COUNT_UNSET, script(n));
    var p := PostAt(h, Clean, script(n));
    var rest := r.trace[1..];
    assert r.trace == [x] + rest && x.request == RequestFor(h, entry.sql, COUNT_UNSET);
    FirstStep(used, x, rest);
    HonestPost(h, Clean, used, entry.sql, COUNT_UNSET, script(n));
    var used1, now := Handed(used, script(n)), sent + [x];
    assert sent + r.trace == now + rest;
    var (h1, f1, again) := SessionLost(p.handle, p.failure);
    if !p.end.Gone? {
      assert rest == [] && now + rest == now;
      if p.end.Answer? || (p.failure.state == HY000 && !entry.required) {
        PostCovers(h, Clean, used, x, entry, sent, scope);
        FlagsAreNothing(p.handle, r.handle, now, scope + [entry]);
      }
    } else if again {
      LoginSafety.LostInStep(h, used1);
      NothingCovered(h1, now);
      var s := ApplyWholeScope(h1, f1, script, n + 1);
      var a := SendAgain(s.handle, s.failure, script, n + 1 + |s.trace|, entry.sql, COUNT_UNSET);
      assert rest == if s.result then s.trace + a.trace else s.trace;
      HonestConcat(used1, s.trace, a.trace);
      PassCovers(h1, f1, used1, script, n + 1, 0, false, now);
      if s.result {
        assert now + rest == (now + s.trace) + a.trace;
        ContextSafety.ApplyScopeHonest(h1, f1, used1, script, n + 1, 0, false);
        AgainCovers(s.handle, s.failure, HandedAfter(used1, s.trace), script, n + 1 + |s.trace|, entry.sql,
                    now + s.trace, scope + [entry]);
      } else {
        PendingUntilWhole(h1, f1, script, n + 1, 0, false);
      }
    }
  }

  lemma FlagsAreNothing(h: Handle, h1: Handle, sent: seq<Exchange>, scope: seq<ScopeEntry>)
    requires h1.sessionId == h.sessionId
    ensures Covers(h1, sent, scope) == Covers(h, sent, scope)
  {}

  /** What was covered stays covered when the statement is sent once more. */
  lemma AgainCovers(h: Handle, f: Failure, used: set<string>, script: Script, n: nat, sql: string,
                    sent: seq<Exchange>, scope: seq<ScopeEntry>)
    requires InStep(h, used) && Covers(h, sent, scope) && scope != []
    requires Honest(used, SendAgain(h, f, script, n, sql, COUNT_UNSET).trace)
    ensures var r := SendAgain(h, f, script, n, sql, COUNT_UNSET);
            Covers(r.handle, sent + r.trace, scope) || (r.result.None? && r.handle.sessionId.None?)
  {
    hide Post, Honours, RequestFor, Track, InOrder, InStep;
    var x := Exchanged(h, Statement, sql, COUNT_UNSET, script(n));
    assert SendAgain(h, f, script, n, sql, COUNT_UNSET).trace == [x] + [];
    assert x.request == RequestFor(h, sql, COUNT_UNSET);
    FirstStep(used, x, []);
    HonestPost(h, f, used, sql, COUNT_UNSET, script(n));
    var id := h.sessionId.value;
    HistoryConcat(sent, [x], id);
    OneInHistory(x, id);
    OneLater(History(sent, id), scope, x);
    assert History(sent, id) + [] == History(sent, id);
  }

  lemma UseObjectCovers(h: Handle, used: set<string>, script: Script, n: nat, u: Use, sent: seq<Exchange>)
    requires LoginSafety.Joining(h, used) && Covers(h, sent, h.scope)
    requires Honest(used, UseObject(h, Clean, script, n, u).trace)
    ensures var r := UseObject(h, Clean, script, n, u);
            r.result ==> Covers(r.handle, sent + r.trace, r.handle.scope)
  {
    hide SendStatement, IsIdentifier, UseSql, Honest, Track, Honours, Covers, InStep, LoginSafety.AnyRequired;
    assert sent + [] == sent;
    if u.name.Some? && u.name.value != "" && IsIdentifier(u.name.value) {
      var sql := UseSql(u.kind, u.name.value);
      var entry := ScopeEntry(sql, u.required);
      var h1 := h.(scope := h.scope + [entry]);
      JoiningMeans(h, used);
      ScopeIsNothing(h, h1, used, sent, h.scope);
      LoginSafety.ExecuteIsSend(h1, script, n, sql);
      SendCovers(h1, used, script, n, h.scope, entry, sent);
      LoginSafety.UseObjectJoins(h, used, script, n, u);
      ExecuteScope(h1, script, n, sql);
    }
  }

  lemma ScopeIsNothing(h: Handle, h1: Handle, used: set<string>, sent: seq<Exchange>, scope: seq<ScopeEntry>)
    requires h1 == h.(scope := h1.scope)
    ensures Covers(h1, sent, scope) == Covers(h, sent, scope) && InStep(h1, used) == InStep(h, used)
  {}

  lemma JoiningMeans(h: Handle, used: set<string>)
    requires LoginSafety.Joining(h, used)
    ensures InStep(h, used) && SessionProofs.Consistent(h) && !h.scopePending
  {}

  lemma ExecuteScope(h: Handle, script: Script, n: nat, sql: string)
    requires SessionProofs.Consistent(h)
    ensures Execute(h, Clean, script, n, sql, COUNT_UNSET).handle.scope == h.scope
  {
    hide Execute;
    SessionProofs.ExecuteKeeps(h, Clean, script, n, sql, COUNT_UNSET);
  }

  lemma {:induction false} UseAllCovers(h: Handle, used: set<string>, script: Script, n: nat, uses: seq<Use>,
                                       sent: seq<Exchange>)
    requires LoginSafety.Joining(h, used) && Covers(h, sent, h.scope)
    requires Honest(used, UseAll(h, Clean, script, n, uses).trace)
    ensures var r := UseAll(h, Clean, script, n, uses);
            r.result ==> Covers(r.handle, sent + r.trace, r.handle.scope)
    decreases |uses|
  {
    hide UseObject, LoginSafety.Joining, Honest, HandedAfter, Covers;
    assert sent + [] == sent;
    if uses != [] {
      var r := UseObject(h, Clean, script, n, uses[0]);
      if r.result {
        var rest := UseAll(r.handle, r.failure, script, n + |r.trace|, uses[1..]);
        HonestConcat(used, r.trace, rest.trace);
        LoginSafety.UseObjectJoins(h, used, script, n, uses[0]);
        UseObjectCovers(h, used, script, n, uses[0], sent);
        UseAllCovers(r.handle, HandedAfter(used, r.trace), script, n + |r.trace|, uses[1..], sent + r.trace);
        assert sent + (r.trace + rest.trace) == (sent + r.trace) + rest.trace;
      }
    }
  }

  /** The session a successful login leaves has taken the whole of the data source's scope, in login order. */
  lemma ConnectCoversScope(autoCommit: bool, used: set<string>, script: Script, n: nat, healthy: bool,
                           source: DataSource)
    requires Honest(used, Connect(autoCommit, script, n, healthy, source).trace)
    ensures var r := Connect(autoCommit, script, n, healthy, source);
            var scope := Entries(Uses(source));
            r.result && scope != [] ==>
              r.handle.sessionId.Some? && InOrder(History(r.trace, r.handle.sessionId.value), scope)
  {
    hide UseAll, Uses, Entries, Honest, InOrder, History;
    LoginSafety.ConnectKeeps(autoCommit, script, n, healthy, source);
    if healthy {
      assert !LoginSafety.AnyRequired([]);
      var r := UseAll(Opened(autoCommit), Clean, script, n, Uses(source));
      UseAllCovers(Opened(autoCommit), used, script, n, Uses(source), []);
      assert [] + r.trace == r.trace;
    }
  }
}
