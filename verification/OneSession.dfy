/**
 Context safety read off two calls of a run: what an acknowledged statement set up, and the
 transaction one opened, pin every later request to the session they were left on.
 */
module OneSession {
  import opened CText
  import opened Tracker
  import TrackerProofs
  import opened Session
  import Engine
  import opened ContextSafety

  /** The call returned 08003. */
  predicate Lost(r: Record) { r.failure.Failure? && r.failure.state == S08003 }

  /** The call's statement was answered and holds a COMMIT or ROLLBACK. */
  predicate EndedOne(r: Record) { Acknowledged(r) && !TrackerProofs.NoneEnds(Statements(StatementOf(r.call), 0)) }

  function WatchAll(m: Held, records: seq<Record>, autoCommit: bool): Held
    decreases |records|
  {
    if records == [] then m else WatchAll(Watch(m, records[0], autoCommit), records[1..], autoCommit)
  }

  lemma {:induction false} SafeAt(m: Held, records: seq<Record>, autoCommit: bool, j: nat)
    requires j < |records| && SafeRun(m, records, autoCommit)
    ensures StaysOn(WatchAll(m, records[..j], autoCommit), records[j].trace)
    decreases j
  {
    hide StaysOn, Watch;
    if j > 0 {
      SafeAt(Watch(m, records[0], autoCommit), records[1..], autoCommit, j - 1);
      assert records[..j][1..] == records[1..][..j - 1];
    }
  }

  lemma {:induction false} WatchAllConcat(m: Held, xs: seq<Record>, ys: seq<Record>, autoCommit: bool)
    ensures WatchAll(m, xs + ys, autoCommit) == WatchAll(WatchAll(m, xs, autoCommit), ys, autoCommit)
    decreases |xs|
  {
    hide Watch;
    if xs == [] {
      assert xs + ys == ys;
    } else {
      assert (xs + ys)[1..] == xs[1..] + ys;
      WatchAllConcat(Watch(m, xs[0], autoCommit), xs[1..], ys, autoCommit);
    }
  }

  lemma {:induction false} SafeTail(m: Held, records: seq<Record>, autoCommit: bool, i: nat)
    requires i <= |records| && SafeRun(m, records, autoCommit)
    ensures SafeRun(WatchAll(m, records[..i], autoCommit), records[i..], autoCommit)
    decreases i
  {
    hide StaysOn, Watch;
    if i > 0 {
      SafeTail(Watch(m, records[0], autoCommit), records[1..], autoCommit, i - 1);
      assert records[..i][1..] == records[1..][..i - 1] && records[i..] == records[1..][i - 1..];
    } else {
      assert records[i..] == records;
    }
  }

  /** Tracking never clears `dirty`, and clears `in_transaction` only at a COMMIT or ROLLBACK. */
  lemma TrackKeeps(flags: Flags, autoCommit: bool, sql: string)
    ensures flags.dirty ==> Track(flags, autoCommit, sql).dirty
    ensures flags.inTransaction && TrackerProofs.NoneEnds(Statements(sql, 0)) ==>
              Track(flags, autoCommit, sql).inTransaction
  {
    hide TrackerProofs.NoneEnds, Statements;
    TrackerProofs.FoldMeans(flags, autoCommit, Statements(sql, 0));
  }

  /** What a request leaves on an empty session it leaves on any. */
  lemma TrackLeaves(flags: Flags, autoCommit: bool, sql: string)
    ensures Track(NOTHING_HELD, autoCommit, sql).dirty ==> Track(flags, autoCommit, sql).dirty
    ensures Track(NOTHING_HELD, autoCommit, sql).inTransaction ==> Track(flags, autoCommit, sql).inTransaction
  {
    hide TrackerProofs.NoneEnds, Statements, TrackerProofs.Touches;
    TrackerProofs.FoldMeans(flags, autoCommit, Statements(sql, 0));
    TrackerProofs.FoldMeans(NOTHING_HELD, autoCommit, Statements(sql, 0));
  }

  /** One call that loses nothing keeps what is held, on its session. */
  lemma HoldStep(m: Held, r: Record, autoCommit: bool)
    requires StaysOn(m, r.trace) && (Acknowledged(r) ==> LastRan(r).Some?) && !Lost(r)
    ensures var w := Watch(m, r, autoCommit);
            && (m.flags.dirty ==> w.flags.dirty && w.session == m.session)
            && (m.flags.inTransaction && !EndedOne(r) ==> w.flags.inTransaction && w.session == m.session)
  {
    hide Track, TrackerProofs.NoneEnds, Statements;
    TrackKeeps(m.flags, autoCommit, StatementOf(r.call));
    if Acknowledged(r) {
      assert r.trace[|r.trace| - 1] in r.trace;
    }
  }

  lemma {:induction false} HoldStays(m: Held, records: seq<Record>, autoCommit: bool)
    requires SafeRun(m, records, autoCommit) && forall r :: r in records ==> !Lost(r)
    requires forall r :: r in records && Acknowledged(r) ==> LastRan(r).Some?
    ensures var w := WatchAll(m, records, autoCommit);
            && (m.flags.dirty ==> w.flags.dirty && w.session == m.session)
            && (m.flags.inTransaction && (forall r :: r in records ==> !EndedOne(r)) ==>
                  w.flags.inTransaction && w.session == m.session)
    decreases |records|
  {
    hide StaysOn, Watch, Acknowledged, LastRan, EndedOne, Lost;
    if records != [] {
      assert records[0] in records;
      HoldStep(m, records[0], autoCommit);
      HoldStays(Watch(m, records[0], autoCommit), records[1..], autoCommit);
    }
  }

  /** Every request of the call that ran, ran on this session. */
  predicate RanOn(r: Record, session: Option<string>) {
    forall x :: x in r.trace ==> x.moment.ran.None? || x.moment.ran == session
  }

  /**
   Call `i` was acknowledged and set up context. Until some call returns 08003, every request of
   every later call runs on the session where call `i` ran, or not at all.
   */
  lemma ContextStaysOnItsSession(h: Handle, used: set<string>, script: Script, n: nat, calls: seq<Call>,
                                 i: nat, j: nat)
    requires Engine.InStep(h, used) && h.flags == NOTHING_HELD
    requires Engine.Honest(used, Sent(RunCalls(h, script, n, calls)))
    requires i < j < |calls| && calls[i].Ask? && Acknowledged(RunCalls(h, script, n, calls)[i])
    requires Track(NOTHING_HELD, h.autoCommit, calls[i].sql).dirty
    requires forall k :: i < k < j ==> !Lost(RunCalls(h, script, n, calls)[k])
    ensures var records := RunCalls(h, script, n, calls);
            LastRan(records[i]).Some? && RanOn(records[j], LastRan(records[i]))
  {
    hide Track, RunCalls, SafeRun, Lost, Acknowledged, LastRan, Engine.InStep, Engine.Honest;
    RunSafe(h, NO_HOLD, used, script, n, calls);
    RecordOfCall(h, script, n, calls, i);
    PinnedFrom(NO_HOLD, RunCalls(h, script, n, calls), h.autoCommit, i, j);
  }

  /**
   Call `i` was acknowledged and left a transaction open. Until some call returns 08003 or an
   acknowledged statement ends it, every request of every later call runs on the session where call
   `i` ran, or not at all; the one that ends it runs there too.
   */
  lemma TransactionStaysOnItsSession(h: Handle, used: set<string>, script: Script, n: nat, calls: seq<Call>,
                                     i: nat, j: nat)
    requires Engine.InStep(h, used) && h.flags == NOTHING_HELD
    requires Engine.Honest(used, Sent(RunCalls(h, script, n, calls)))
    requires i < j < |calls| && calls[i].Ask? && Acknowledged(RunCalls(h, script, n, calls)[i])
    requires Track(NOTHING_HELD, h.autoCommit, calls[i].sql).inTransaction
    requires forall k :: i < k < j ==> var r := RunCalls(h, script, n, calls)[k]; !Lost(r) && !EndedOne(r)
    ensures var records := RunCalls(h, script, n, calls);
            LastRan(records[i]).Some? && RanOn(records[j], LastRan(records[i]))
  {
    hide Track, RunCalls, SafeRun, Lost, EndedOne, Acknowledged, LastRan, Engine.InStep, Engine.Honest;
    RunSafe(h, NO_HOLD, used, script, n, calls);
    RecordOfCall(h, script, n, calls, i);
    PinnedFrom(NO_HOLD, RunCalls(h, script, n, calls), h.autoCommit, i, j);
  }

  lemma {:induction false} RecordOfCall(h: Handle, script: Script, n: nat, calls: seq<Call>, i: nat)
    requires i < |calls|
    ensures RunCalls(h, script, n, calls)[i].call == calls[i]
    decreases i
  {
    hide Execute, SessionAlive;
    if i > 0 {
      var r := RunCall(h, script, n, calls[0]);
      RecordOfCall(r.handle, script, n + |r.record.trace|, calls[1..], i - 1);
    }
  }

  /** The same of any run the monitor found safe. */
  lemma PinnedFrom(m: Held, records: seq<Record>, autoCommit: bool, i: nat, j: nat)
    requires i < j < |records| && SafeRun(m, records, autoCommit)
    requires forall r :: r in records && Acknowledged(r) ==> LastRan(r).Some?
    requires records[i].call.Ask? && Acknowledged(records[i]) && forall k :: i < k < j ==> !Lost(records[k])
    requires var left := Track(NOTHING_HELD, autoCommit, records[i].call.sql);
             left.dirty || (left.inTransaction && forall k :: i < k < j ==> !EndedOne(records[k]))
    ensures LastRan(records[i]).Some? && RanOn(records[j], LastRan(records[i]))
  {
    hide Track, SafeRun, Lost, EndedOne, Acknowledged, LastRan, WatchAll;
    var before := WatchAll(m, records[..i], autoCommit);
    var then_ := Watch(before, records[i], autoCommit);
    TrackLeaves(before.flags, autoCommit, StatementOf(records[i].call));
    assert records[..i + 1] == records[..i] + [records[i]];
    WatchAllConcat(m, records[..i], [records[i]], autoCommit);
    OneWatched(before, records[i], autoCommit);
    SafeTail(m, records, autoCommit, i + 1);
    var tail, k := records[i + 1..], j - (i + 1);
    assert forall r :: r in tail[..k] ==> exists q :: i < q < j && r == records[q];
    SafePrefix(then_, tail, autoCommit, k);
    HoldStays(then_, tail[..k], autoCommit);
    SafeAt(then_, tail, autoCommit, k);
  }

  lemma OneWatched(m: Held, r: Record, autoCommit: bool)
    ensures WatchAll(m, [r], autoCommit) == Watch(m, r, autoCommit)
  {
    hide Watch;
    assert [r][1..] == [];
  }

  lemma {:induction false} SafePrefix(m: Held, records: seq<Record>, autoCommit: bool, k: nat)
    requires k <= |records| && SafeRun(m, records, autoCommit)
    ensures SafeRun(m, records[..k], autoCommit)
    decreases k
  {
    hide StaysOn, Watch;
    if k > 0 {
      SafePrefix(Watch(m, records[0], autoCommit), records[1..], autoCommit, k - 1);
      assert records[..k][1..] == records[1..][..k - 1];
    }
  }
}
