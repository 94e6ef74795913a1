/** How often a statement reaches the engine: never twice, and once more after a harmless loss. */
module Delivery {
  import opened Tracker
  import opened Session
  import SessionProofs

  /** A 404 that names no session, to a request that required its own, means that nothing ran. */
  predicate RefusesTruly(x: Exchange) {
    ( && x.moment.reply.Reply? && !x.moment.reply.success && x.moment.reply.status == 404
      && x.moment.reply.sessionId.None? && x.request.requireSession)
    ==> x.moment.ran.None?
  }

  predicate AllTrue(trace: seq<Exchange>) { forall x :: x in trace ==> RefusesTruly(x) }

  /** How many times the engine ran the statement the trace was sent for. */
  function Executions(trace: seq<Exchange>): nat
    decreases |trace|
  {
    if trace == [] then 0
    else (if trace[0].origin.Statement? && trace[0].moment.ran.Some? then 1 else 0) + Executions(trace[1..])
  }

  lemma {:induction false} ExecutionsConcat(xs: seq<Exchange>, ys: seq<Exchange>)
    ensures Executions(xs + ys) == Executions(xs) + Executions(ys)
    decreases |xs|
  {
    if xs == [] {
      assert xs + ys == ys;
    } else {
      assert (xs + ys)[1..] == xs[1..] + ys;
      ExecutionsConcat(xs[1..], ys);
    }
  }

  lemma {:induction false} ScopeExecutesNone(h: Handle, f: Failure, script: Script, n: nat, i: nat, restarted: bool)
    requires i <= |h.scope|
    ensures var trace := ApplyScope(h, f, script, n, i, restarted).trace;
            Executions(trace) == 0 && forall x :: x in trace ==> x.origin.Scope?
    decreases if restarted then 0 else 1, |h.scope| - i
  {
    hide Post;
    if i < |h.scope| {
      var p := PostAt(h, f, script(n));
      SessionProofs.PostScope(h, f, script(n).reply);
      var trace := ApplyScope(h, f, script, n, i, restarted).trace;
      assert trace[0].origin == Scope(i);
      match p.end {
        case Gone =>
          if !restarted {
            assert trace[1..] == ApplyScope(Forget(p.handle), p.failure, script, n + 1, 0, true).trace;
            ScopeExecutesNone(Forget(p.handle), p.failure, script, n + 1, 0, true);
          }
        case Failed =>
          if !h.scope[i].required && p.failure.state == HY000 {
            assert trace[1..] == ApplyScope(p.handle, Clean, script, n + 1, i + 1, restarted).trace;
            ScopeExecutesNone(p.handle, Clean, script, n + 1, i + 1, restarted);
          }
        case Answer(_) =>
          assert trace[1..] == ApplyScope(p.handle, p.failure, script, n + 1, i + 1, restarted).trace;
          ScopeExecutesNone(p.handle, p.failure, script, n + 1, i + 1, restarted);
      }
    }
  }

  /** The second post is reached only when the first ran nothing. */
  lemma SendStatementOnce(h: Handle, f: Failure, script: Script, n: nat, sql: string, count: int)
    requires AllTrue(SendStatement(h, f, script, n, sql, count).trace)
    ensures Executions(SendStatement(h, f, script, n, sql, count).trace) <= 1
  {
    hide Post, ApplyScope, Track;
    var x := Exchanged(h, Statement, sql, count, script(n));
    var p := PostAt(h, f, script(n));
    var trace := SendStatement(h, f, script, n, sql, count).trace;
    assert trace[0] == x && x in trace;
    OneExecution(x);
    var (h1, f1, again) := SessionLost(p.handle, p.failure);
    if p.end.Gone? && again {
      GoneRanNothing(h, f, x, sql, count);
      var s := ApplyWholeScope(h1, f1, script, n + 1);
      ScopeExecutesNone(h1, f1, script, n + 1, 0, false);
      ExecutionsConcat([x], s.trace);
      if s.result {
        var a := SendAgain(s.handle, s.failure, script, n + 1 + |s.trace|, sql, count);
        OneExecution(a.trace[0]);
        ExecutionsConcat([x] + s.trace, a.trace);
      }
    }
  }

  lemma OneExecution(x: Exchange)
    ensures Executions([x]) == if x.origin.Statement? && x.moment.ran.Some? then 1 else 0
  {
    assert [x][1..] == [];
  }

  lemma GoneRanNothing(h: Handle, f: Failure, x: Exchange, sql: string, count: int)
    requires x.request == RequestFor(h, sql, count) && RefusesTruly(x)
    requires PostAt(h, f, x.moment).end.Gone?
    ensures x.moment.ran.None?
  {}

  /** At most once, whatever else the engine and the network do. */
  lemma ExecuteAtMostOnce(h: Handle, f: Failure, script: Script, n: nat, sql: string, count: int)
    requires AllTrue(Execute(h, f, script, n, sql, count).trace)
    ensures Executions(Execute(h, f, script, n, sql, count).trace) <= 1
  {
    hide Post, ApplyScope, SendStatement, Track;
    if h.scopePending {
      var s := ApplyWholeScope(h, f, script, n);
      ScopeExecutesNone(h, f, script, n, 0, false);
      if s.result {
        var a := SendStatement(s.handle, s.failure, script, n + |s.trace|, sql, count);
        ExecutionsConcat(s.trace, a.trace);
        SendStatementOnce(s.handle, s.failure, script, n + |s.trace|, sql, count);
      }
    } else {
      SendStatementOnce(h, f, script, n, sql, count);
    }
  }

  /** In any run, each call has its statement executed at most once. */
  lemma {:induction false} RunAtMostOnce(h: Handle, script: Script, n: nat, calls: seq<Call>)
    requires AllTrue(Sent(RunCalls(h, script, n, calls)))
    ensures forall r :: r in RunCalls(h, script, n, calls) ==> Executions(r.trace) <= 1
    decreases |calls|
  {
    hide Execute, Post, Track;
    if calls != [] {
      var records := RunCalls(h, script, n, calls);
      var r := RunCall(h, script, n, calls[0]);
      assert Sent(records) == r.record.trace + Sent(records[1..]);
      assert AllTrue(r.record.trace);
      match calls[0] {
        case Ask(sql, count) => ExecuteAtMostOnce(h, Clean, script, n, sql, count);
        case Check(_) =>
          OneExecution(Exchanged(h, Probe, PROBE, COUNT_UNSET, script(n)));
          if !(h.sessionId.None? && !h.scopePending) && !h.flags.Any() {
            ExecuteAtMostOnce(h, Clean, script, n, PROBE, COUNT_UNSET);
          }
      }
      RunAtMostOnce(r.handle, script, n + |r.record.trace|, calls[1..]);
    }
  }

  // ---------------------------------------------------------------- a harmless loss is repaired

  /** The next `k` answers are successes. */
  predicate Obliges(script: Script, n: nat, k: nat) {
    forall j :: n <= j < n + k ==> script(j).reply.Reply? && script(j).reply.success
  }

  lemma {:induction false} ScopeGoesOn(h: Handle, script: Script, n: nat, i: nat, restarted: bool)
    requires i <= |h.scope| && Obliges(script, n, |h.scope| - i)
    ensures var r := ApplyScope(h, Clean, script, n, i, restarted);
            && r.result && r.failure.Clean? && |r.trace| == |h.scope| - i && r.handle.scope == h.scope
            && forall k :: 0 <= k < |r.trace| ==>
                 r.trace[k].origin == Scope(i + k) && r.trace[k].request.sql == h.scope[i + k].sql
    decreases |h.scope| - i
  {
    hide Absorb;
    if i < |h.scope| {
      var p := PostAt(h, Clean, script(n));
      SessionProofs.PostScope(h, Clean, script(n).reply);
      var r1 := ApplyScope(p.handle, Clean, script, n + 1, i + 1, restarted);
      ScopeGoesOn(p.handle, script, n + 1, i + 1, restarted);
      var r := ApplyScope(h, Clean, script, n, i, restarted);
      assert r.trace == [Exchanged(h, Scope(i), h.scope[i].sql, COUNT_UNSET, script(n))] + r1.trace;
    }
  }

  /**
   A pass that loses its session part-way starts over on a fresh one, once: with an engine that answers
   from then on every entry is sent again, from the first, and the pass succeeds.
   */
  lemma InterruptedPassStartsOver(h: Handle, script: Script, n: nat, i: nat)
    requires i < |h.scope| && PostAt(h, Clean, script(n)).end.Gone? && Obliges(script, n + 1, |h.scope|)
    ensures var r := ApplyScope(h, Clean, script, n, i, false);
            && r.result && r.failure.Clean? && |r.trace| == |h.scope| + 1 && !r.handle.scopePending
            && forall k :: 0 <= k < |h.scope| ==>
                 r.trace[k + 1].origin == Scope(k) && r.trace[k + 1].request.sql == h.scope[k].sql
  {
    hide Absorb;
    var p := PostAt(h, Clean, script(n));
    assert p.handle == h && p.failure == Clean;
    var rest := ApplyScope(Forget(h), Clean, script, n + 1, 0, true);
    ScopeGoesOn(Forget(h), script, n + 1, 0, true);
    SucceededIsNotPending(Forget(h), script, n + 1, 0, true);
    var r := ApplyScope(h, Clean, script, n, i, false);
    assert r.trace == [Exchanged(h, Scope(i), h.scope[i].sql, COUNT_UNSET, script(n))] + rest.trace;
  }

  /** A second loss ends it: 08003, nothing more sent, the scope still owed. */
  lemma SecondLossEndsThePass(h: Handle, script: Script, n: nat, i: nat)
    requires i < |h.scope| && PostAt(h, Clean, script(n)).end.Gone?
    ensures var r := ApplyScope(h, Clean, script, n, i, true);
            && !r.result && |r.trace| == 1 && r.handle == Forget(h) && r.handle.scopePending
            && r.failure == Failure(S08003, FreshSessionRefused)
  {
    hide Absorb;
  }

  lemma {:induction false} SucceededIsNotPending(h: Handle, script: Script, n: nat, i: nat, restarted: bool)
    requires i <= |h.scope| && Obliges(script, n, |h.scope| - i)
    ensures !ApplyScope(h, Clean, script, n, i, restarted).handle.scopePending
    decreases |h.scope| - i
  {
    hide Absorb;
    if i < |h.scope| {
      var p := PostAt(h, Clean, script(n));
      SessionProofs.PostScope(h, Clean, script(n).reply);
      SucceededIsNotPending(p.handle, script, n + 1, i + 1, restarted);
    }
  }

  /**
   A lost session that held nothing is replaced: with an engine that answers from then on, the call
   sends the statement, each USE of the scope in order, and the statement once more, and succeeds.
   */
  lemma LostSessionIsReplaced(h: Handle, script: Script, n: nat, sql: string, count: int)
    requires !h.scopePending && !h.flags.Any() && PostAt(h, Clean, script(n)).end.Gone?
    requires Obliges(script, n + 1, |h.scope| + 1)
    ensures var r := Execute(h, Clean, script, n, sql, count);
            var m := |h.scope|;
            && r.result.Some? && r.failure.Clean? && |r.trace| == m + 2
            && r.trace[0].origin.Statement? && r.trace[m + 1].origin.Statement?
            && r.trace[0].request.sql == r.trace[m + 1].request.sql == sql
            && forall k :: 0 <= k < m ==>
                 r.trace[k + 1].origin == Scope(k) && r.trace[k + 1].request.sql == h.scope[k].sql
  {
    hide Absorb, ApplyScope, Track;
    var p := PostAt(h, Clean, script(n));
    assert p.handle == h && p.failure == Clean;
    var h1 := Forget(h);
    ScopeGoesOn(h1, script, n + 1, 0, false);
    var s := ApplyWholeScope(h1, Clean, script, n + 1);
    var again := n + 1 + |s.trace|;
    assert script(again).reply.success;
    var a := SendAgain(s.handle, s.failure, script, again, sql, count);
    var r := Execute(h, Clean, script, n, sql, count);
    assert r.trace == ([Exchanged(h, Statement, sql, count, script(n))] + s.trace) + a.trace;
  }
}
