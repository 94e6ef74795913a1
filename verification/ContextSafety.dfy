/**
 Context safety over whole runs: once an acknowledged statement has left context or an open
 transaction on a session, nothing runs on any other session until a call has returned 08003.
 What a statement leaves is the tracker's reading of it, not an abstract flag.
 */
module ContextSafety {
  import opened CText
  import opened Tracker
  import opened Json
  import opened Session
  import SessionProofs
  import opened Engine

  // ---------------------------------------------------------------- the monitor

  /** What acknowledged statements have left behind, and on which session. */
  datatype Held = Held(flags: Flags, session: Option<string>)

  const NO_HOLD := Held(NOTHING_HELD, None)

  /** The call's own statement was answered. */
  predicate Acknowledged(r: Record) {
    r.success && r.trace != [] && r.trace[|r.trace| - 1].origin.Statement?
  }

  /** Where the call's last request ran, if it did. */
  function LastRan(r: Record): Option<string> {
    if r.trace == [] then None else r.trace[|r.trace| - 1].moment.ran
  }

  function StatementOf(call: Call): string {
    if call.Ask? then call.sql else PROBE
  }

  /**
   The monitor sees a call from outside: its statement, whether it was answered, where the engine
   ran it, and the SQLSTATE it returned. It never looks at the driver's handle.
   */
  function Watch(m: Held, r: Record, autoCommit: bool): Held {
    if Acknowledged(r) then
      Held(Track(m.flags, autoCommit, StatementOf(r.call)), LastRan(r))
    else if r.failure.Failure? && r.failure.state == S08003 then NO_HOLD
    else m
  }

  /** While something is held, whatever the call made the engine run, it ran on that session. */
  predicate StaysOn(m: Held, trace: seq<Exchange>) {
    m.flags.Any() ==> forall x :: x in trace ==> x.moment.ran.None? || x.moment.ran == m.session
  }

  predicate SafeRun(m: Held, records: seq<Record>, autoCommit: bool)
    decreases |records|
  {
    records == [] ||
    (StaysOn(m, records[0].trace) && SafeRun(Watch(m, records[0], autoCommit), records[1..], autoCommit))
  }

  // ---------------------------------------------------------------- one call

  lemma {:induction false} ApplyScopeHonest(h: Handle, f: Failure, used: set<string>, script: Script, n: nat,
                                           i: nat, restarted: bool)
    requires i <= |h.scope| && InStep(h, used) && h.flags == NOTHING_HELD
    requires Honest(used, ApplyScope(h, f, script, n, i, restarted).trace)
    ensures var r := ApplyScope(h, f, script, n, i, restarted);
            && InStep(r.handle, HandedAfter(used, r.trace)) && r.handle.flags == NOTHING_HELD
            && SessionProofs.Later(h, r.handle)
    decreases if restarted then 0 else 1, |h.scope| - i
  {
    hide Post, Honours, RequestFor, Track;
    if i < |h.scope| {
      var x := Exchanged(h, Scope(i), h.scope[i].sql, COUNT_UNSET, script(n));
      assert x.request == RequestFor(h, h.scope[i].sql, COUNT_UNSET);
      HonestPost(h, f, used, h.scope[i].sql, COUNT_UNSET, script(n));
      var p := PostAt(h, f, script(n));
      var used1 := Handed(used, script(n));
      var r := ApplyScope(h, f, script, n, i, restarted);
      assert r.trace[0] == x;
      match p.end {
        case Gone =>
          if !restarted {
            var r1 := ApplyScope(Forget(p.handle), p.failure, script, n + 1, 0, true);
            assert r.trace[1..] == r1.trace;
            ApplyScopeHonest(Forget(p.handle), p.failure, used1, script, n + 1, 0, true);
          } else {
            assert r.trace[1..] == [];
          }
        case Failed =>
          if !h.scope[i].required && p.failure.state == HY000 {
            var r1 := ApplyScope(p.handle, Clean, script, n + 1, i + 1, restarted);
            assert r.trace[1..] == r1.trace;
            ApplyScopeHonest(p.handle, Clean, used1, script, n + 1, i + 1, restarted);
          } else {
            assert r.trace[1..] == [];
          }
        case Answer(_) =>
          var r1 := ApplyScope(p.handle, p.failure, script, n + 1, i + 1, restarted);
          assert r.trace[1..] == r1.trace;
          ApplyScopeHonest(p.handle, p.failure, used1, script, n + 1, i + 1, restarted);
      }
    }
  }

  /** How a statement may come out: answered, lost with 08003, or failed with nothing changed. */
  predicate Fair(h: Handle, r: Run<Option<Json>>, sql: string) {
    && (h.flags.Any() ==> forall x :: x in r.trace ==> x.moment.ran.None? || x.moment.ran == h.sessionId)
    && match r.result
       case Some(_) =>
         && r.trace != [] && r.trace[|r.trace| - 1].origin.Statement?
         && r.handle.sessionId.Some? && r.trace[|r.trace| - 1].moment.ran == r.handle.sessionId
         && r.handle.flags == Track(h.flags, h.autoCommit, sql)
       case None =>
         r.failure.Failure? &&
         if r.failure.state == S08003 then r.handle.flags == NOTHING_HELD
         else r.handle.flags == h.flags && (h.flags.Any() ==> r.handle.sessionId == h.sessionId)
  }

  lemma SendAgainHonest(h: Handle, f: Failure, used: set<string>, script: Script, n: nat, sql: string, count: int)
    requires InStep(h, used) && h.flags == NOTHING_HELD && !h.scopePending
    requires Honest(used, SendAgain(h, f, script, n, sql, count).trace)
    ensures var r := SendAgain(h, f, script, n, sql, count);
            InStep(r.handle, HandedAfter(used, r.trace)) && Fair(h, r, sql)
  {
    hide Post, Honours, RequestFor, Track;
    var r := SendAgain(h, f, script, n, sql, count);
    var x := Exchanged(h, Statement, sql, count, script(n));
    assert r.trace == [x] && x.request == RequestFor(h, sql, count);
    HonestPost(h, f, used, sql, count, script(n));
    assert r.trace[1..] == [];
  }

  lemma SendStatementHonest(h: Handle, f: Failure, used: set<string>, script: Script, n: nat, sql: string, count: int)
    requires InStep(h, used) && !h.scopePending
    requires Honest(used, SendStatement(h, f, script, n, sql, count).trace)
    ensures var r := SendStatement(h, f, script, n, sql, count);
            InStep(r.handle, HandedAfter(used, r.trace)) && Fair(h, r, sql)
  {
    hide Post, Honours, RequestFor, Track, ApplyScope, SendAgain;
    var r := SendStatement(h, f, script, n, sql, count);
    var x := Exchanged(h, Statement, sql, count, script(n));
    var p := PostAt(h, f, script(n));
    assert r.trace[0] == x && x.request == RequestFor(h, sql, count);
    HonestPost(h, f, used, sql, count, script(n));
    var used1 := Handed(used, script(n));
    if !p.end.Gone? {
      assert r.trace == [x] && r.trace[1..] == [];
    } else {
      var (h1, f1, again) := SessionLost(p.handle, p.failure);
      if !again {
        assert r.trace == [x] && r.trace[1..] == [];
      } else {
        ReplacedHonest(h1, f1, used1, script, n + 1, sql, count, x, r);
      }
    }
  }

  /** The tail of a statement whose session was lost with nothing held. */
  lemma ReplacedHonest(h1: Handle, f1: Failure, used1: set<string>, script: Script, n: nat, sql: string, count: int,
                       x: Exchange, whole: Run<Option<Json>>)
    requires InStep(h1, used1) && h1.flags == NOTHING_HELD
    requires var s := ApplyWholeScope(h1, f1, script, n);
             whole == if !s.result then Run(s.handle, s.failure, [x] + s.trace, None)
                      else SendAgain(s.handle, s.failure, script, n + |s.trace|, sql, count).After([x] + s.trace)
    requires x.moment.ran.None? && Honest(used1, whole.trace[1..])
    ensures InStep(whole.handle, HandedAfter(used1, whole.trace[1..])) && Fair(h1, whole, sql)
  {
    hide Post, Honours, RequestFor, Track, ApplyScope, SendAgain, InStep;
    var s := ApplyWholeScope(h1, f1, script, n);
    if !s.result {
      assert whole.trace[1..] == s.trace;
      ApplyScopeHonest(h1, f1, used1, script, n, 0, false);
      ApplyScopeKeepsFailing(h1, f1, script, n);
    } else {
      var a := SendAgain(s.handle, s.failure, script, n + |s.trace|, sql, count);
      assert whole.trace[1..] == s.trace + a.trace;
      HonestConcat(used1, s.trace, a.trace);
      ApplyScopeHonest(h1, f1, used1, script, n, 0, false);
      ApplyScopeKeepsFailing(h1, f1, script, n);
      SendAgainHonest(s.handle, s.failure, HandedAfter(used1, s.trace), script, n + |s.trace|, sql, count);
      assert a.trace != [] ==> whole.trace[|whole.trace| - 1] == a.trace[|a.trace| - 1];
    }
  }

  lemma ApplyScopeKeepsFailing(h: Handle, f: Failure, script: Script, n: nat)
    requires exists used :: InStep(h, used)
    ensures var s := ApplyWholeScope(h, f, script, n);
            (s.result ==> !s.handle.scopePending) && (!s.result ==> s.failure.Failure?)
  {
    SessionProofs.ApplyScopeKeeps(h, f, script, n, 0, false);
  }

  lemma ExecuteHonest(h: Handle, f: Failure, used: set<string>, script: Script, n: nat, sql: string, count: int)
    requires InStep(h, used)
    requires Honest(used, Execute(h, f, script, n, sql, count).trace)
    ensures var r := Execute(h, f, script, n, sql, count);
            InStep(r.handle, HandedAfter(used, r.trace)) && Fair(h, r, sql)
  {
    hide Post, Honours, RequestFor, Track, ApplyScope, SendStatement;
    if !h.scopePending {
      SendStatementHonest(h, f, used, script, n, sql, count);
    } else {
      var s := ApplyWholeScope(h, f, script, n);
      ApplyScopeKeepsFailing(h, f, script, n);
      if s.result {
        var a := SendStatement(s.handle, s.failure, script, n + |s.trace|, sql, count);
        HonestConcat(used, s.trace, a.trace);
        ApplyScopeHonest(h, f, used, script, n, 0, false);
        SendStatementHonest(s.handle, s.failure, HandedAfter(used, s.trace), script, n + |s.trace|, sql, count);
        FairAfter(h, s, a, sql);
      } else {
        ApplyScopeHonest(h, f, used, script, n, 0, false);
      }
    }
  }

  lemma FairAfter(h: Handle, s: Run<bool>, a: Run<Option<Json>>, sql: string)
    requires h.flags == NOTHING_HELD == s.handle.flags && SessionProofs.Later(h, s.handle) && Fair(s.handle, a, sql)
    ensures Fair(h, a.After(s.trace), sql)
  {
    hide Track;
    assert a.trace != [] ==> (s.trace + a.trace)[|s.trace + a.trace| - 1] == a.trace[|a.trace| - 1];
  }

  // ---------------------------------------------------------------- whole runs

  /** The monitor, which never sees the handle, agrees with it. */
  predicate Linked(h: Handle, m: Held) {
    m.flags == h.flags && (h.flags.Any() ==> h.sessionId.Some? && m.session == h.sessionId)
  }

  lemma CallSafe(h: Handle, m: Held, used: set<string>, script: Script, n: nat, call: Call)
    requires InStep(h, used) && Linked(h, m)
    requires Honest(used, RunCall(h, script, n, call).record.trace)
    ensures var r := RunCall(h, script, n, call);
            && InStep(r.handle, HandedAfter(used, r.record.trace)) && SessionProofs.Later(h, r.handle)
            && StaysOn(m, r.record.trace) && Linked(r.handle, Watch(m, r.record, h.autoCommit))
            && (Acknowledged(r.record) ==> LastRan(r.record).Some?)
  {
    hide Post, Honours, RequestFor, Track, ApplyScope, SendStatement, Execute;
    SessionProofs.CallKeeps(h, script, n, call);
    if call.Ask? {
      ExecuteHonest(h, Clean, used, script, n, call.sql, call.count);
      AskSafe(h, m, Execute(h, Clean, script, n, call.sql, call.count), call.sql);
    } else if h.sessionId.None? && !h.scopePending {
      assert RunCall(h, script, n, call).record.trace == [];
    } else if !h.flags.Any() {
      ExecuteHonest(h, Clean, used, script, n, PROBE, COUNT_UNSET);
      AskSafe(h, m, Execute(h, Clean, script, n, PROBE, COUNT_UNSET), PROBE);
    } else {
      HonestPost(h, Clean, used, PROBE, COUNT_UNSET, script(n));
      var trace := RunCall(h, script, n, call).record.trace;
      assert trace == [Exchanged(h, Probe, PROBE, COUNT_UNSET, script(n))] && trace[1..] == [];
      assert trace[0].request == RequestFor(h, PROBE, COUNT_UNSET);
    }
  }

  /** However a statement comes out, the monitor's next state agrees with the handle. */
  lemma AskSafe(h: Handle, m: Held, r: Run<Option<Json>>, sql: string)
    requires Linked(h, m) && Fair(h, r, sql)
    ensures StaysOn(m, r.trace)
    ensures match r.result
            case Some(_) =>
              && r.trace != [] && r.trace[|r.trace| - 1].origin.Statement?
              && var ran := r.trace[|r.trace| - 1].moment.ran;
                 ran.Some? && Linked(r.handle, Held(Track(m.flags, h.autoCommit, sql), ran))
            case None => r.failure.Failure? && Linked(r.handle, if r.failure.state == S08003 then NO_HOLD else m)
  {
    hide Track;
  }

  lemma {:induction false} RunSafe(h: Handle, m: Held, used: set<string>, script: Script, n: nat, calls: seq<Call>)
    requires InStep(h, used) && Linked(h, m)
    requires Honest(used, Sent(RunCalls(h, script, n, calls)))
    ensures SafeRun(m, RunCalls(h, script, n, calls), h.autoCommit)
    ensures forall r :: r in RunCalls(h, script, n, calls) && Acknowledged(r) ==> LastRan(r).Some?
    decreases |calls|
  {
    hide RunCall, StaysOn, Watch, InStep, Linked, Track, Acknowledged, LastRan;
    if calls != [] {
      var records := RunCalls(h, script, n, calls);
      var r := RunCall(h, script, n, calls[0]);
      HonestConcat(used, r.record.trace, Sent(records[1..]));
      CallSafe(h, m, used, script, n, calls[0]);
      RunSafe(r.handle, Watch(m, r.record, h.autoCommit), HandedAfter(used, r.record.trace),
              script, n + |r.record.trace|, calls[1..]);
    }
  }

  /** Context safety: every run, against every honest engine, from an open connection. */
  lemma ContextSafety(h: Handle, used: set<string>, script: Script, n: nat, calls: seq<Call>)
    requires InStep(h, used) && h.flags == NOTHING_HELD
    requires Honest(used, Sent(RunCalls(h, script, n, calls)))
    ensures SafeRun(NO_HOLD, RunCalls(h, script, n, calls), h.autoCommit)
  {
    RunSafe(h, NO_HOLD, used, script, n, calls);
  }
}
