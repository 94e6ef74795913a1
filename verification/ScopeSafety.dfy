/**
 Replacement sessions start on the data source's scope. Whatever the adversary loses and however
 often a pass restarts, the last requests run on a session before its first statement are the
 data source's USE statements, in login order, each accepted or tolerably refused.
 */
module ScopeSafety {
  import opened CText
  import opened Tracker
  import opened Session
  import SessionProofs
  import opened Engine
  import opened ContextSafety

  // ---------------------------------------------------------------- a session's history

  /** The exchanges of a run that the engine ran in session `id`, in order. */
  function History(trace: seq<Exchange>, id: string): seq<Exchange>
    decreases |trace|
  {
    if trace == [] then []
    else (if trace[0].moment.ran == Some(id) then [trace[0]] else []) + History(trace[1..], id)
  }

  lemma {:induction false} HistoryConcat(xs: seq<Exchange>, ys: seq<Exchange>, id: string)
    ensures History(xs + ys, id) == History(xs, id) + History(ys, id)
    decreases |xs|
  {
    if xs == [] {
      assert xs + ys == ys;
    } else {
      assert (xs + ys)[1..] == xs[1..] + ys;
      HistoryConcat(xs[1..], ys, id);
    }
  }

  /** The engine accepted the USE, or refused one it may refuse as it refuses a statement. */
  predicate Applied(x: Exchange, scope: seq<ScopeEntry>, i: nat)
    requires i < |scope|
  {
    && x.origin == Scope(i) && x.request.sql == scope[i].sql && x.moment.reply.Reply?
    && (x.moment.reply.success
        || (!scope[i].required && (x.moment.reply.status == 200 || x.moment.reply.status == 400)))
  }

  /** The last `i` requests of the history are the first `i` entries of the scope. */
  predicate EndsOn(history: seq<Exchange>, scope: seq<ScopeEntry>, i: nat)
    requires i <= |scope|
  {
    i <= |history| &&
    var last := history[|history| - i..];
    forall k :: 0 <= k < i ==> Applied(last[k], scope, k)
  }

  predicate HasStatement(history: seq<Exchange>) {
    exists x :: x in history && !x.origin.Scope?
  }

  /** Before the first request that is not a USE of the scope, the whole scope went on. */
  predicate StartsOnScope(history: seq<Exchange>, scope: seq<ScopeEntry>) {
    forall p :: 0 <= p < |history| && !history[p].origin.Scope? && !HasStatement(history[..p]) ==>
      EndsOn(history[..p], scope, |scope|)
  }

  lemma HistoryGrows(history: seq<Exchange>, scope: seq<ScopeEntry>, x: Exchange)
    requires StartsOnScope(history, scope)
    requires x.origin.Scope? || HasStatement(history) || EndsOn(history, scope, |scope|)
    ensures StartsOnScope(history + [x], scope)
  {
    var longer := history + [x];
    forall p | 0 <= p < |longer| && !longer[p].origin.Scope? && !HasStatement(longer[..p])
      ensures EndsOn(longer[..p], scope, |scope|)
    {
      if p < |history| {
        assert longer[p] == history[p] && longer[..p] == history[..p];
      } else {
        assert longer[..p] == history;
      }
    }
  }

  lemma OneMore(history: seq<Exchange>, scope: seq<ScopeEntry>, i: nat, x: Exchange)
    requires i < |scope| && EndsOn(history, scope, i) && Applied(x, scope, i)
    ensures EndsOn(history + [x], scope, i + 1)
  {
    var longer := history + [x];
    assert longer[|longer| - (i + 1)..] == history[|history| - i..] + [x];
  }

  // ---------------------------------------------------------------- one pass over the scope

  /** One honest post, seen from session `id`: the history it leaves and the session it is held on. */
  lemma PostHistory(h: Handle, f: Failure, used: set<string>, x: Exchange, count: int, id: string,
                    history: seq<Exchange>)
    requires InStep(h, used) && (id !in used ==> history == [])
    requires x.request == RequestFor(h, x.request.sql, count) && Honours(used, x.request, x.moment)
    ensures var p := PostAt(h, f, x.moment);
            var next := history + History([x], id);
            && (id !in Handed(used, x.moment) ==> next == [])
            && next == (if x.moment.ran == Some(id) then history + [x] else history)
            && (h.sessionId.None? && x.moment.ran == Some(id) ==> history == [])
            && (h.sessionId.Some? && h.sessionId != Some(id) ==> next == history)
  {
    assert [x][1..] == [];
  }

  lemma PostApplies(h: Handle, f: Failure, x: Exchange, i: nat)
    requires i < |h.scope| && x.origin == Scope(i) && x.request.sql == h.scope[i].sql
    ensures var p := PostAt(h, f, x.moment);
            p.end.Answer? || (p.end.Failed? && p.failure.state == HY000 && !h.scope[i].required) ==>
              Applied(x, h.scope, i)
  {}

  /** Entry `i` is next on session `id`: the `i` before it are its last requests. */
  predicate OnTheWay(h: Handle, id: string, history: seq<Exchange>, i: nat)
    requires i <= |h.scope|
  {
    && (h.sessionId.None? ==> i == 0)
    && (h.sessionId == Some(id) ==> EndsOn(history, h.scope, i))
  }

  /** A USE of the scope was sent: the history may have grown by it. */
  lemma {:induction false} ScopeStep(h: Handle, f: Failure, used: set<string>, x: Exchange, i: nat, id: string,
                                     history: seq<Exchange>)
    requires InStep(h, used) && (id !in used ==> history == []) && StartsOnScope(history, h.scope)
    requires i < |h.scope| && OnTheWay(h, id, history, i)
    requires x == Exchanged(h, Scope(i), h.scope[i].sql, COUNT_UNSET, x.moment)
    requires Honours(used, x.request, x.moment)
    ensures var p := PostAt(h, f, x.moment);
            var next := history + History([x], id);
            && (id !in Handed(used, x.moment) ==> next == []) && StartsOnScope(next, h.scope)
            && (p.end.Answer? || (p.end.Failed? && p.failure.state == HY000 && !h.scope[i].required) ==>
                  p.handle.sessionId.Some? && OnTheWay(p.handle, id, next, i + 1))
            && (p.end.Gone? ==> next == history)
  {
    hide Post, Honours, StartsOnScope, EndsOn, Applied;
    var p := PostAt(h, f, x.moment);
    PostHistory(h, f, used, x, COUNT_UNSET, id, history);
    HonestPost(h, f, used, h.scope[i].sql, COUNT_UNSET, x.moment);
    PostApplies(h, f, x, i);
    HistoryGrows(history, h.scope, x);
    if p.end.Answer? || (p.end.Failed? && p.failure.state == HY000 && !h.scope[i].required) {
      if p.handle.sessionId == Some(id) {
        EmptyEnd(history, h.scope);
        OneMore(history, h.scope, i, x);
      }
    }
  }

  lemma EmptyEnd(history: seq<Exchange>, scope: seq<ScopeEntry>)
    ensures EndsOn(history, scope, 0)
  {}

  lemma {:induction false} PassOnScope(h: Handle, f: Failure, used: set<string>, script: Script, n: nat,
                                      i: nat, restarted: bool, id: string, history: seq<Exchange>)
    requires InStep(h, used) && h.flags == NOTHING_HELD && (id !in used ==> history == [])
    requires StartsOnScope(history, h.scope) && i <= |h.scope| && OnTheWay(h, id, history, i)
    requires Honest(used, ApplyScope(h, f, script, n, i, restarted).trace)
    ensures var r := ApplyScope(h, f, script, n, i, restarted);
            var next := history + History(r.trace, id);
            && r.handle.scope == h.scope
            && (id !in HandedAfter(used, r.trace) ==> next == []) && StartsOnScope(next, h.scope)
            && (r.result ==> OnTheWay(r.handle, id, next, |h.scope|))
    decreases if restarted then 0 else 1, |h.scope| - i
  {
    hide Post, Honours, StartsOnScope, EndsOn, Applied, InStep, History, HandedAfter, Honest, RequestFor;
    var r := ApplyScope(h, f, script, n, i, restarted);
    if i == |h.scope| {
      NothingSent(used, id, history);
    } else {
      var x := Exchanged(h, Scope(i), h.scope[i].sql, COUNT_UNSET, script(n));
      var p := PostAt(h, f, script(n));
      var rest := r.trace[1..];
      assert r.trace == [x] + rest;
      FirstStep(used, x, rest);
      HistoryConcat([x], rest, id);
      ScopeStep(h, f, used, x, i, id, history);
      HonestPost(h, f, used, h.scope[i].sql, COUNT_UNSET, script(n));
      var used1, next := Handed(used, script(n)), history + History([x], id);
      assert history + History(r.trace, id) == next + History(rest, id);
      NothingSent(used1, id, next);
      match p.end {
        case Gone =>
          if !restarted {
            assert rest == ApplyScope(Forget(p.handle), p.failure, script, n + 1, 0, true).trace;
            ForgetInStep(p.handle, used1);
            PassOnScope(Forget(p.handle), p.failure, used1, script, n + 1, 0, true, id, next);
          } else {
            assert rest == [];
          }
        case Failed =>
          if !h.scope[i].required && p.failure.state == HY000 {
            assert rest == ApplyScope(p.handle, Clean, script, n + 1, i + 1, restarted).trace;
            PassOnScope(p.handle, Clean, used1, script, n + 1, i + 1, restarted, id, next);
          } else {
            assert rest == [];
          }
        case Answer(_) =>
          assert rest == ApplyScope(p.handle, p.failure, script, n + 1, i + 1, restarted).trace;
          PassOnScope(p.handle, p.failure, used1, script, n + 1, i + 1, restarted, id, next);
      }
    }
  }

  lemma NothingSent(used: set<string>, id: string, history: seq<Exchange>)
    ensures HandedAfter(used, []) == used && History([], id) == [] && history + [] == history
  {}

  lemma ForgetInStep(h: Handle, used: set<string>)
    requires InStep(h, used) && h.tracks == 1
    ensures InStep(Forget(h), used) && Forget(h).flags == NOTHING_HELD
  {}

  // ---------------------------------------------------------------- whole runs

  /**
   Between calls: a session held with no scope pending has started on the scope or is ready for its
   first statement, and there is one unless the scope is empty.
   */
  predicate Ready(h: Handle, id: string, history: seq<Exchange>) {
    && StartsOnScope(history, h.scope)
    && (!h.scopePending ==>
          && (h.sessionId.Some? || h.scope == [])
          && (h.sessionId == Some(id) ==> HasStatement(history) || EndsOn(history, h.scope, |h.scope|)))
  }

  /** A request that is no USE of the scope, sent when the handle is ready for it. */
  lemma StatementStep(h: Handle, f: Failure, used: set<string>, x: Exchange, count: int, id: string,
                      history: seq<Exchange>)
    requires InStep(h, used) && (id !in used ==> history == []) && !h.scopePending && Ready(h, id, history)
    requires !x.origin.Scope? && x.request == RequestFor(h, x.request.sql, count)
    requires Honours(used, x.request, x.moment)
    ensures var p := PostAt(h, f, x.moment);
            var next := history + History([x], id);
            && (id !in Handed(used, x.moment) ==> next == []) && Ready(p.handle, id, next)
  {
    hide Post, Honours, StartsOnScope, RequestFor;
    PostHistory(h, f, used, x, count, id, history);
    HonestPost(h, f, used, x.request.sql, count, x.moment);
    if x.moment.ran == Some(id) {
      if h.sessionId.None? {
        EmptyEnd(history, h.scope);
      }
      HistoryGrows(history, h.scope, x);
      assert x in history + [x];
    }
  }

  lemma SendAgainReady(h: Handle, f: Failure, used: set<string>, script: Script, n: nat, sql: string, count: int,
                       id: string, history: seq<Exchange>)
    requires InStep(h, used) && (id !in used ==> history == []) && !h.scopePending && Ready(h, id, history)
    requires Honest(used, SendAgain(h, f, script, n, sql, count).trace)
    ensures var r := SendAgain(h, f, script, n, sql, count);
            var next := history + History(r.trace, id);
            && (id !in HandedAfter(used, r.trace) ==> next == []) && Ready(r.handle, id, next)
  {
    hide Post, Honours, StartsOnScope, Track, History, EndsOn, HasStatement;
    var x := Exchanged(h, Statement, sql, count, script(n));
    assert SendAgain(h, f, script, n, sql, count).trace == [x] == [x] + [];
    FirstStep(used, x, []);
    StatementStep(h, f, used, x, count, id, history);
  }

  /** After a loss with nothing held: the scope goes on, then the statement once more. */
  lemma ReplacedReady(h: Handle, f: Failure, used: set<string>, script: Script, n: nat, sql: string, count: int,
                      id: string, history: seq<Exchange>)
    requires InStep(h, used) && h.flags == NOTHING_HELD && h.sessionId.None? && h.scopePending
    requires (id !in used ==> history == []) && StartsOnScope(history, h.scope)
    requires var s := ApplyWholeScope(h, f, script, n);
             && Honest(used, s.trace)
             && (s.result ==>
                   Honest(HandedAfter(used, s.trace),
                          SendAgain(s.handle, s.failure, script, n + |s.trace|, sql, count).trace))
    ensures var s := ApplyWholeScope(h, f, script, n);
            var a := SendAgain(s.handle, s.failure, script, n + |s.trace|, sql, count);
            var r := if s.result then a.After(s.trace) else Run(s.handle, s.failure, s.trace, None);
            var next := history + History(r.trace, id);
            && (id !in HandedAfter(used, r.trace) ==> next == []) && Ready(r.handle, id, next)
  {
    hide Post, Honours, StartsOnScope, RequestFor, Track, History, EndsOn, HasStatement, ApplyScope, SendAgain,
      InStep, HandedAfter, Honest;
    var s := ApplyWholeScope(h, f, script, n);
    EmptyEnd(history, h.scope);
    PassReady(h, f, used, script, n, id, history);
    if s.result {
      var a := SendAgain(s.handle, s.failure, script, n + |s.trace|, sql, count);
      var mid := history + History(s.trace, id);
      ApplyScopeHonest(h, f, used, script, n, 0, false);
      SendAgainReady(s.handle, s.failure, HandedAfter(used, s.trace), script, n + |s.trace|, sql, count, id, mid);
      HistoryConcat(s.trace, a.trace, id);
      HonestConcat(used, s.trace, a.trace);
      assert history + History(s.trace + a.trace, id) == mid + History(a.trace, id);
    }
  }

  /** A whole pass leaves the handle ready, or the scope still pending. */
  lemma PassReady(h: Handle, f: Failure, used: set<string>, script: Script, n: nat, id: string, history: seq<Exchange>)
    requires InStep(h, used) && h.flags == NOTHING_HELD && h.scopePending
    requires (id !in used ==> history == []) && StartsOnScope(history, h.scope)
    requires Honest(used, ApplyWholeScope(h, f, script, n).trace)
    ensures var s := ApplyWholeScope(h, f, script, n);
            var next := history + History(s.trace, id);
            && (id !in HandedAfter(used, s.trace) ==> next == []) && Ready(s.handle, id, next)
            && s.handle.scopePending == !s.result
  {
    hide Post, Honours, StartsOnScope, RequestFor, Track, History, EndsOn, HasStatement, ApplyScope, HandedAfter,
      Honest;
    EmptyEnd(history, h.scope);
    PassOnScope(h, f, used, script, n, 0, false, id, history);
    PendingUntilWhole(h, f, script, n, 0, false);
  }

  lemma {:induction false} PendingUntilWhole(h: Handle, f: Failure, script: Script, n: nat, i: nat, restarted: bool)
    requires SessionProofs.Consistent(h) && i <= |h.scope| && h.scopePending
    ensures var s := ApplyScope(h, f, script, n, i, restarted);
            s.handle.scopePending == !s.result
    decreases if restarted then 0 else 1, |h.scope| - i
  {
    hide Post;
    if i < |h.scope| {
      var p := PostAt(h, f, script(n));
      PostPending(h, f, script(n).reply);
      match p.end {
        case Gone =>
          if !restarted {
            PendingUntilWhole(Forget(p.handle), p.failure, script, n + 1, 0, true);
          }
        case Failed =>
          if !h.scope[i].required && p.failure.state == HY000 {
            PendingUntilWhole(p.handle, Clean, script, n + 1, i + 1, restarted);
          }
        case Answer(_) =>
          PendingUntilWhole(p.handle, p.failure, script, n + 1, i + 1, restarted);
      }
    }
  }

  lemma PostPending(h: Handle, f: Failure, reply: Reply)
    requires SessionProofs.Consistent(h) && h.scopePending
    ensures var p := Post(h, f, reply);
            SessionProofs.Consistent(p.handle) && p.handle.scopePending && p.handle.scope == h.scope
            && (p.end.Gone? ==> p.handle.tracks == 1)
            && (p.end.Failed? ==> p.failure.Failure?)
  {}

  lemma {:induction false} SendStatementReady(h: Handle, f: Failure, used: set<string>, script: Script, n: nat,
                                              sql: string, count: int, id: string, history: seq<Exchange>)
    requires InStep(h, used) && (id !in used ==> history == []) && !h.scopePending && Ready(h, id, history)
    requires Honest(used, SendStatement(h, f, script, n, sql, count).trace)
    ensures var r := SendStatement(h, f, script, n, sql, count);
            var next := history + History(r.trace, id);
            && (id !in HandedAfter(used, r.trace) ==> next == []) && Ready(r.handle, id, next)
  {
    hide Post, Honours, StartsOnScope, Track, History, EndsOn, HasStatement, ApplyScope, SendAgain, HandedAfter, Honest;
    var r := SendStatement(h, f, script, n, sql, count);
    var x := Exchanged(h, Statement, sql, count, script(n));
    var p := PostAt(h, f, script(n));
    var rest := r.trace[1..];
    assert r.trace == [x] + rest;
    FirstStep(used, x, rest);
    HistoryConcat([x], rest, id);
    StatementStep(h, f, used, x, count, id, history);
    HonestPost(h, f, used, sql, count, script(n));
    var used1, mid := Handed(used, script(n)), history + History([x], id);
    NothingSent(used1, id, mid);
    assert history + History([x] + rest, id) == mid + History(rest, id);
    var (h1, f1, again) := SessionLost(p.handle, p.failure);
    if !p.end.Gone? || !again {
      assert rest == [];
    } else {
      var s := ApplyWholeScope(h1, f1, script, n + 1);
      var a := SendAgain(s.handle, s.failure, script, n + 1 + |s.trace|, sql, count);
      assert rest == if s.result then s.trace + a.trace else s.trace;
      HonestConcat(used1, s.trace, a.trace);
      ReplacedReady(h1, f1, used1, script, n + 1, sql, count, id, mid);
    }
  }

  lemma ExecuteReady(h: Handle, f: Failure, used: set<string>, script: Script, n: nat, sql: string, count: int,
                     id: string, history: seq<Exchange>)
    requires InStep(h, used) && (id !in used ==> history == []) && Ready(h, id, history)
    requires Honest(used, Execute(h, f, script, n, sql, count).trace)
    ensures var r := Execute(h, f, script, n, sql, count);
            var next := history + History(r.trace, id);
            && (id !in HandedAfter(used, r.trace) ==> next == []) && Ready(r.handle, id, next)
  {
    hide Post, Honours, StartsOnScope, Track, History, EndsOn, HasStatement, ApplyScope, SendStatement, HandedAfter,
      Honest;
    if h.scopePending {
      var s := ApplyWholeScope(h, f, script, n);
      if s.result {
        var a := SendStatement(s.handle, s.failure, script, n + |s.trace|, sql, count);
        HonestConcat(used, s.trace, a.trace);
        ApplyScopeHonest(h, f, used, script, n, 0, false);
        PassReady(h, f, used, script, n, id, history);
        var mid := history + History(s.trace, id);
        SendStatementReady(s.handle, s.failure, HandedAfter(used, s.trace), script, n + |s.trace|, sql, count, id, mid);
        HistoryConcat(s.trace, a.trace, id);
        assert history + History(s.trace + a.trace, id) == mid + History(a.trace, id);
      } else {
        PassReady(h, f, used, script, n, id, history);
      }
    } else {
      SendStatementReady(h, f, used, script, n, sql, count, id, history);
    }
  }

  lemma {:induction false} CallReady(h: Handle, used: set<string>, script: Script, n: nat, call: Call, id: string,
                                     history: seq<Exchange>)
    requires InStep(h, used) && (id !in used ==> history == []) && Ready(h, id, history)
    requires Honest(used, RunCall(h, script, n, call).record.trace)
    ensures var r := RunCall(h, script, n, call);
            var next := history + History(r.record.trace, id);
            && (id !in HandedAfter(used, r.record.trace) ==> next == []) && Ready(r.handle, id, next)
  {
    hide Post, Honours, Ready, InStep, Track, History, ApplyScope, Execute, HandedAfter, Honest;
    NothingSent(used, id, history);
    if call.Ask? {
      ExecuteReady(h, Clean, used, script, n, call.sql, call.count, id, history);
    } else if h.sessionId.None? && !h.scopePending {
    } else if !h.flags.Any() {
      ExecuteReady(h, Clean, used, script, n, PROBE, COUNT_UNSET, id, history);
    } else {
      var x := Exchanged(h, Probe, PROBE, COUNT_UNSET, script(n));
      assert RunCall(h, script, n, call).record.trace == [x] + [];
      FirstStep(used, x, []);
      NothingSent(Handed(used, script(n)), id, history);
      HeldIsNotPending(h, used);
      StatementStep(h, Clean, used, x, COUNT_UNSET, id, history);
    }
  }

  lemma HeldIsNotPending(h: Handle, used: set<string>)
    requires InStep(h, used) && h.flags.Any()
    ensures !h.scopePending
  {}

  lemma {:induction false} RunOnScope(h: Handle, used: set<string>, script: Script, n: nat, calls: seq<Call>,
                                     m: Held, id: string, history: seq<Exchange>)
    requires InStep(h, used) && Linked(h, m) && (id !in used ==> history == []) && Ready(h, id, history)
    requires Honest(used, Sent(RunCalls(h, script, n, calls)))
    ensures StartsOnScope(history + History(Sent(RunCalls(h, script, n, calls)), id), h.scope)
    decreases |calls|
  {
    hide RunCall, StaysOn, Watch, InStep, Linked, Track, StartsOnScope, History, HandedAfter, Honest;
    if calls == [] {
      NothingSent(used, id, history);
    } else {
      var records := RunCalls(h, script, n, calls);
      var r := RunCall(h, script, n, calls[0]);
      var rest := Sent(records[1..]);
      HonestConcat(used, r.record.trace, rest);
      HistoryConcat(r.record.trace, rest, id);
      CallSafe(h, m, used, script, n, calls[0]);
      CallReady(h, used, script, n, calls[0], id, history);
      var next := history + History(r.record.trace, id);
      assert history + History(r.record.trace + rest, id) == next + History(rest, id);
      RunOnScope(r.handle, HandedAfter(used, r.record.trace), script, n + |r.record.trace|, calls[1..],
                 Watch(m, r.record, h.autoCommit), id, next);
    }
  }

  /** Every session started after connecting has the whole scope put on before its first statement. */
  lemma ReplacementsStartOnScope(h: Handle, used: set<string>, script: Script, n: nat, calls: seq<Call>, id: string)
    requires InStep(h, used) && h.flags == NOTHING_HELD && !h.scopePending
    requires h.sessionId.Some? || h.scope == []
    requires Honest(used, Sent(RunCalls(h, script, n, calls))) && id !in used
    ensures StartsOnScope(History(Sent(RunCalls(h, script, n, calls)), id), h.scope)
  {
    var all := History(Sent(RunCalls(h, script, n, calls)), id);
    assert [] + all == all;
    RunOnScope(h, used, script, n, calls, NO_HOLD, id, []);
  }
}
