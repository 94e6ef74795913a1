/**
 What becomes of an answer that says the session is gone: it is followed by a request that names no
 session, or the call ends with 08003; and a loss of something held is always reported.
 */
module Losses {
  import opened CText
  import opened Tracker
  import opened Json
  import opened Session
  import SessionProofs
  import Engine
  import opened ContextSafety

  /** A failed 404 that names no session, to a request that required its own. */
  predicate IsGone(x: Exchange) {
    && x.moment.reply.Reply? && !x.moment.reply.success && x.moment.reply.status == 404
    && x.moment.reply.sessionId.None? && x.request.requireSession
  }

  predicate Is08003(f: Failure) { f.Failure? && f.state == S08003 }

  /** After every gone answer a request goes out that names no session, or it was the last and `lost`. */
  predicate Handled(trace: seq<Exchange>, lost: bool)
    decreases |trace|
  {
    trace == [] ||
    ( && (IsGone(trace[0]) ==> if |trace| > 1 then trace[1].request.sessionId.None? else lost)
      && Handled(trace[1..], lost))
  }

  /** A first request that names no session. */
  predicate StartsFresh(trace: seq<Exchange>) { trace != [] && trace[0].request.sessionId.None? }

  lemma {:induction false} HandledConcat(xs: seq<Exchange>, ys: seq<Exchange>, lost: bool)
    requires Handled(xs, false) && Handled(ys, lost)
    ensures Handled(xs + ys, lost)
    decreases |xs|
  {
    hide IsGone;
    if xs == [] {
      assert xs + ys == ys;
    } else {
      assert (xs + ys)[1..] == xs[1..] + ys;
      HandledConcat(xs[1..], ys, lost);
    }
  }

  lemma HandledThen(x: Exchange, rest: seq<Exchange>, lost: bool)
    requires Handled(rest, lost)
    requires IsGone(x) ==> StartsFresh(rest) || (rest == [] && lost)
    ensures Handled([x] + rest, lost)
  {
    hide IsGone;
    assert ([x] + rest)[1..] == rest;
  }

  lemma GoneIsGone(h: Handle, f: Failure, x: Exchange, count: int)
    requires x.request == RequestFor(h, x.request.sql, count)
    ensures IsGone(x) <==> PostAt(h, f, x.moment).end.Gone?
  {}

  /** The pass over the scope, from any entry, with or without a restart behind it. */
  lemma {:induction false} ApplyScopeHandles(h: Handle, f: Failure, script: Script, n: nat, i: nat, restarted: bool)
    requires i <= |h.scope|
    ensures var r := ApplyScope(h, f, script, n, i, restarted);
            && Handled(r.trace, !r.result && Is08003(r.failure))
            && (h.sessionId.None? ==>
                  StartsFresh(r.trace) || (r.trace == [] && r.result && r.handle.sessionId.None?))
    decreases if restarted then 0 else 1, |h.scope| - i
  {
    hide Post, IsGone, Handled;
    if i == |h.scope| {
      NothingHandled();
    } else {
      var x := Exchanged(h, Scope(i), h.scope[i].sql, COUNT_UNSET, script(n));
      var p := PostAt(h, f, script(n));
      SessionProofs.PostScope(h, f, script(n).reply);
      GoneIsGone(h, f, x, COUNT_UNSET);
      NothingHandled();
      HandledAlone(x);
      match p.end {
        case Gone =>
          if !restarted {
            var r := ApplyScope(Forget(p.handle), p.failure, script, n + 1, 0, true);
            ApplyScopeHandles(Forget(p.handle), p.failure, script, n + 1, 0, true);
            HandledThen(x, r.trace, !r.result && Is08003(r.failure));
          }
        case Failed =>
          if !h.scope[i].required && p.failure.state == HY000 {
            var r := ApplyScope(p.handle, Clean, script, n + 1, i + 1, restarted);
            ApplyScopeHandles(p.handle, Clean, script, n + 1, i + 1, restarted);
            HandledThen(x, r.trace, !r.result && Is08003(r.failure));
          }
        case Answer(_) =>
          var r := ApplyScope(p.handle, p.failure, script, n + 1, i + 1, restarted);
          ApplyScopeHandles(p.handle, p.failure, script, n + 1, i + 1, restarted);
          HandledThen(x, r.trace, !r.result && Is08003(r.failure));
      }
    }
  }

  lemma NothingHandled()
    ensures Handled([], false) && Handled([], true)
  {}

  lemma HandledAlone(x: Exchange)
    ensures Handled([x], true) && (!IsGone(x) ==> Handled([x], false))
  {
    hide IsGone;
    assert [x][1..] == [];
  }

  lemma SendAgainHandles(h: Handle, f: Failure, script: Script, n: nat, sql: string, count: int)
    ensures var r := SendAgain(h, f, script, n, sql, count);
            && Handled(r.trace, r.result.None? && Is08003(r.failure))
            && (h.sessionId.None? ==> StartsFresh(r.trace))
  {
    hide Post, IsGone, Handled, Track;
    var x := Exchanged(h, Statement, sql, count, script(n));
    GoneIsGone(h, f, x, count);
    HandledAlone(x);
  }

  lemma SendStatementHandles(h: Handle, f: Failure, script: Script, n: nat, sql: string, count: int)
    ensures var r := SendStatement(h, f, script, n, sql, count);
            Handled(r.trace, r.result.None? && Is08003(r.failure))
  {
    hide Post, IsGone, Handled, Track, ApplyScope, SendAgain;
    var x := Exchanged(h, Statement, sql, count, script(n));
    var p := PostAt(h, f, script(n));
    GoneIsGone(h, f, x, count);
    HandledAlone(x);
    var (h1, f1, again) := SessionLost(p.handle, p.failure);
    if p.end.Gone? && again {
      var s := ApplyWholeScope(h1, f1, script, n + 1);
      ApplyScopeHandles(h1, f1, script, n + 1, 0, false);
      if s.result {
        var a := SendAgain(s.handle, s.failure, script, n + 1 + |s.trace|, sql, count);
        SendAgainHandles(s.handle, s.failure, script, n + 1 + |s.trace|, sql, count);
        var lost := a.result.None? && Is08003(a.failure);
        HandledConcat(s.trace, a.trace, lost);
        HandledThen(x, s.trace + a.trace, lost);
        assert [x] + (s.trace + a.trace) == ([x] + s.trace) + a.trace;
      } else {
        HandledThen(x, s.trace, Is08003(s.failure));
      }
    }
  }

  /** One call, whatever the handle, the slot and the answers. */
  lemma ExecuteHandles(h: Handle, f: Failure, script: Script, n: nat, sql: string, count: int)
    ensures var r := Execute(h, f, script, n, sql, count);
            Handled(r.trace, r.result.None? && Is08003(r.failure))
  {
    hide IsGone, Handled, ApplyScope, SendStatement;
    if h.scopePending {
      var s := ApplyWholeScope(h, f, script, n);
      ApplyScopeHandles(h, f, script, n, 0, false);
      if s.result {
        var a := SendStatement(s.handle, s.failure, script, n + |s.trace|, sql, count);
        SendStatementHandles(s.handle, s.failure, script, n + |s.trace|, sql, count);
        HandledConcat(s.trace, a.trace, a.result.None? && Is08003(a.failure));
      }
    } else {
      SendStatementHandles(h, f, script, n, sql, count);
    }
  }

  /**
   No silent failure: entered clean, no response means a recorded failure and a response means none,
   tolerated refusals of the scope included; and every gone answer becomes a retry without an id or
   the call's 08003.
   */
  lemma NoSilentFailure(h: Handle, script: Script, n: nat, sql: string, count: int)
    requires SessionProofs.Consistent(h)
    ensures var r := Execute(h, Clean, script, n, sql, count);
            (r.result.None? <==> r.failure.Failure?) && Handled(r.trace, Is08003(r.failure))
  {
    hide Execute, Handled;
    SessionProofs.ExecuteKeeps(h, Clean, script, n, sql, count);
    ExecuteHandles(h, Clean, script, n, sql, count);
  }

  // ---------------------------------------------------------------- whole runs

  /** The call told its caller: 08003, or a failed liveness check that leaves the loss to the next statement. */
  predicate Told(r: Record) {
    !r.success && (Is08003(r.failure) || (r.call.Check? && r.trace != [] && r.trace[|r.trace| - 1].origin.Probe?))
  }

  lemma CallHandles(h: Handle, script: Script, n: nat, call: Call)
    ensures var r := RunCall(h, script, n, call).record; Handled(r.trace, Told(r))
  {
    hide Execute, Post, IsGone, Handled;
    NothingHandled();
    if call.Ask? {
      ExecuteHandles(h, Clean, script, n, call.sql, call.count);
    } else if h.sessionId.None? && !h.scopePending {
    } else if !h.flags.Any() {
      ExecuteHandles(h, Clean, script, n, PROBE, COUNT_UNSET);
      Weaken(Execute(h, Clean, script, n, PROBE, COUNT_UNSET), RunCall(h, script, n, call).record);
    } else {
      var x := Exchanged(h, Probe, PROBE, COUNT_UNSET, script(n));
      GoneIsGone(h, Clean, x, COUNT_UNSET);
      HandledAlone(x);
    }
  }

  lemma Weaken(e: Run<Option<Json>>, r: Record)
    requires r.trace == e.trace && r.success == e.result.Some? && r.failure == e.failure
    requires Handled(e.trace, e.result.None? && Is08003(e.failure))
    ensures Handled(r.trace, Told(r))
  {
    hide IsGone;
    MoreLost(e.trace, e.result.None? && Is08003(e.failure), Told(r));
  }

  lemma {:induction false} MoreLost(trace: seq<Exchange>, lost: bool, told: bool)
    requires Handled(trace, lost) && (lost ==> told)
    ensures Handled(trace, told)
    decreases |trace|
  {
    hide IsGone;
    if trace != [] {
      MoreLost(trace[1..], lost, told);
    }
  }

  /** In every run, from any handle and against any answers, no gone answer goes unhandled. */
  lemma {:induction false} RunHandlesLosses(h: Handle, script: Script, n: nat, calls: seq<Call>)
    ensures forall r :: r in RunCalls(h, script, n, calls) ==> Handled(r.trace, Told(r))
    decreases |calls|
  {
    hide RunCall, Handled, Told;
    if calls != [] {
      var r := RunCall(h, script, n, calls[0]);
      CallHandles(h, script, n, calls[0]);
      RunHandlesLosses(r.handle, script, n + |r.record.trace|, calls[1..]);
    }
  }

  // ---------------------------------------------------------------- what was held is reported

  predicate MetGone(r: Record) { exists x :: x in r.trace && IsGone(x) }

  /**
   While something is held, a call that meets a gone answer sends nothing after it. A statement
   answers 08003, naming the transaction before the context; a liveness check only fails.
   */
  predicate ReportsLoss(m: Held, r: Record) {
    m.flags.Any() && MetGone(r) ==>
      && |r.trace| == 1 && !r.success
      && r.failure == match r.call
                      case Ask(_, _) =>
                        Failure(S08003, if m.flags.inTransaction then TransactionLost else ContextLost)
                      case Check(_) => Clean
  }

  predicate AllReportLosses(m: Held, records: seq<Record>, autoCommit: bool)
    decreases |records|
  {
    records == [] ||
    (ReportsLoss(m, records[0]) && AllReportLosses(Watch(m, records[0], autoCommit), records[1..], autoCommit))
  }

  lemma CallReportsLoss(h: Handle, m: Held, used: set<string>, script: Script, n: nat, call: Call)
    requires Engine.InStep(h, used) && Linked(h, m)
    ensures ReportsLoss(m, RunCall(h, script, n, call).record)
  {
    hide Post, Track, IsGone, ApplyScope, SendAgain;
    if h.flags.Any() {
      var r := RunCall(h, script, n, call).record;
      var x := if call.Ask? then Exchanged(h, Statement, call.sql, call.count, script(n))
               else Exchanged(h, Probe, PROBE, COUNT_UNSET, script(n));
      SessionProofs.PostKeeps(h, Clean, script(n).reply);
      GoneIsGone(h, Clean, x, if call.Ask? then call.count else COUNT_UNSET);
      assert r.trace == [x];
    }
  }

  /** Every run against an honest engine: what the monitor says is held is never lost without a word. */
  lemma {:induction false} RunReportsLosses(h: Handle, m: Held, used: set<string>, script: Script, n: nat,
                                           calls: seq<Call>)
    requires Engine.InStep(h, used) && Linked(h, m)
    requires Engine.Honest(used, Sent(RunCalls(h, script, n, calls)))
    ensures AllReportLosses(m, RunCalls(h, script, n, calls), h.autoCommit)
    decreases |calls|
  {
    hide RunCall, ReportsLoss, StaysOn, Watch, Engine.InStep, Linked, Track, Acknowledged, LastRan;
    if calls != [] {
      var records := RunCalls(h, script, n, calls);
      var r := RunCall(h, script, n, calls[0]);
      Engine.HonestConcat(used, r.record.trace, Sent(records[1..]));
      CallSafe(h, m, used, script, n, calls[0]);
      CallReportsLoss(h, m, used, script, n, calls[0]);
      RunReportsLosses(r.handle, Watch(m, r.record, h.autoCommit), Engine.HandedAfter(used, r.record.trace),
                       script, n + |r.record.trace|, calls[1..]);
    }
  }

  /** The same from an open connection that holds nothing. */
  lemma LossesAreReported(h: Handle, used: set<string>, script: Script, n: nat, calls: seq<Call>)
    requires Engine.InStep(h, used) && h.flags == NOTHING_HELD
    requires Engine.Honest(used, Sent(RunCalls(h, script, n, calls)))
    ensures AllReportLosses(NO_HOLD, RunCalls(h, script, n, calls), h.autoCommit)
  {
    RunReportsLosses(h, NO_HOLD, used, script, n, calls);
  }
}
