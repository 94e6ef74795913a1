/** What the protocol keeps against any engine at all: any answers, in any order. */
module SessionProofs {
  import opened Tracker
  import opened Session

  // ---------------------------------------------------------------- the handle's invariants

  predicate Consistent(h: Handle) {
    && -1 <= h.tracks <= 1
    && (h.sessionId.Some? ==> h.tracks >= 0)
    && (h.scopePending ==> h.tracks == 1)
  }

  /** From one state to a later one: tracking only moves up, the connection's settings stay. */
  predicate Later(h: Handle, h1: Handle) {
    h.tracks <= h1.tracks && h1.scope == h.scope && h1.autoCommit == h.autoCommit
  }

  /** A consistent later state, reached with at most `bound` requests. */
  predicate Keeps<T>(h: Handle, r: Run<T>, bound: int) {
    Consistent(r.handle) && Later(h, r.handle) && |r.trace| <= bound
  }

  /** A failure is left exactly when the step did not succeed, if none was there before. */
  predicate Reports(f: Failure, failure: Failure, success: bool) {
    if success then f.Clean? ==> failure.Clean? else failure.Failure?
  }

  lemma PostKeeps(h: Handle, f: Failure, reply: Reply)
    requires Consistent(h)
    ensures var p := Post(h, f, reply);
            && Consistent(p.handle) && Later(h, p.handle)
            && (p.end.Gone? ==> p.handle == h && p.failure == f && h.sessionId.Some? && h.tracks == 1)
            && (p.end.Failed? ==> p.failure.Failure?)
            && (p.end.Answer? ==> p.failure == f)
  {}

  lemma PostScope(h: Handle, f: Failure, reply: Reply)
    ensures Post(h, f, reply).handle.scope == h.scope
    ensures Post(h, f, reply).end.Failed? ==> Post(h, f, reply).failure.Failure?
  {}

  lemma {:induction false} ApplyScopeKeeps(h: Handle, f: Failure, script: Script, n: nat, i: nat, restarted: bool)
    requires Consistent(h) && i <= |h.scope|
    ensures var r := ApplyScope(h, f, script, n, i, restarted);
            && Keeps(h, r, (if restarted then 0 else |h.scope|) + |h.scope| - i)
            && Reports(f, r.failure, r.result) && (r.result ==> !r.handle.scopePending)
    decreases if restarted then 0 else 1, |h.scope| - i
  {
    hide Post;
    if i < |h.scope| {
      var p := PostAt(h, f, script(n));
      PostKeeps(h, f, script(n).reply);
      match p.end {
        case Gone =>
          if !restarted {
            ApplyScopeKeeps(Forget(p.handle), p.failure, script, n + 1, 0, true);
          }
        case Failed =>
          if !h.scope[i].required && p.failure.state == HY000 {
            ApplyScopeKeeps(p.handle, Clean, script, n + 1, i + 1, restarted);
          }
        case Answer(_) =>
          ApplyScopeKeeps(p.handle, p.failure, script, n + 1, i + 1, restarted);
      }
    }
  }

  lemma SendAgainKeeps(h: Handle, f: Failure, script: Script, n: nat, sql: string, count: int)
    requires Consistent(h)
    ensures var r := SendAgain(h, f, script, n, sql, count);
            Keeps(h, r, 1) && Reports(f, r.failure, r.result.Some?)
  {
    PostKeeps(h, f, script(n).reply);
  }

  lemma SendStatementKeeps(h: Handle, f: Failure, script: Script, n: nat, sql: string, count: int)
    requires Consistent(h)
    ensures var r := SendStatement(h, f, script, n, sql, count);
            Keeps(h, r, 2 * |h.scope| + 2) && Reports(f, r.failure, r.result.Some?)
  {
    hide Track, Post;
    var p := PostAt(h, f, script(n));
    PostKeeps(h, f, script(n).reply);
    if p.end.Gone? {
      var (h1, f1, again) := SessionLost(p.handle, p.failure);
      if again {
        ApplyScopeKeeps(h1, f1, script, n + 1, 0, false);
        var r := ApplyWholeScope(h1, f1, script, n + 1);
        SendAgainKeeps(r.handle, r.failure, script, n + 1 + |r.trace|, sql, count);
      }
    }
  }

  /** One call of execute against any answers: at most 4 requests an entry of the scope, and 2. */
  lemma ExecuteKeeps(h: Handle, f: Failure, script: Script, n: nat, sql: string, count: int)
    requires Consistent(h)
    ensures var r := Execute(h, f, script, n, sql, count);
            Keeps(h, r, 4 * |h.scope| + 2) && Reports(f, r.failure, r.result.Some?)
  {
    hide SendStatement, ApplyScope;
    if h.scopePending {
      ApplyScopeKeeps(h, f, script, n, 0, false);
      var r := ApplyWholeScope(h, f, script, n);
      SendStatementKeeps(r.handle, r.failure, script, n + |r.trace|, sql, count);
    } else {
      SendStatementKeeps(h, f, script, n, sql, count);
    }
  }

  /** At most 18 requests for one statement. */
  lemma RequestBound(h: Handle, f: Failure, script: Script, n: nat, sql: string, count: int)
    requires Consistent(h) && |h.scope| <= SCOPE_MAX
    ensures |Execute(h, f, script, n, sql, count).trace| <= 18
  {
    ExecuteKeeps(h, f, script, n, sql, count);
  }

  lemma CallKeeps(h: Handle, script: Script, n: nat, call: Call)
    requires Consistent(h)
    ensures var r := RunCall(h, script, n, call);
            && Consistent(r.handle) && Later(h, r.handle)
            && |r.record.trace| <= 4 * |h.scope| + 2
  {
    match call {
      case Ask(sql, count) => ExecuteKeeps(h, Clean, script, n, sql, count);
      case Check(_) =>
        ExecuteKeeps(h, Clean, script, n, PROBE, COUNT_UNSET);
        PostKeeps(h, Clean, script(n).reply);
    }
  }

  // ---------------------------------------------------------------- whole runs

  function HandleAfter(h: Handle, script: Script, n: nat, calls: seq<Call>): Handle
    decreases |calls|
  {
    if calls == [] then h
    else
      var r := RunCall(h, script, n, calls[0]);
      HandleAfter(r.handle, script, n + |r.record.trace|, calls[1..])
  }

  /** Every run keeps the handle consistent and sends a bounded number of requests. */
  lemma {:induction false} RunKeeps(h: Handle, script: Script, n: nat, calls: seq<Call>)
    requires Consistent(h)
    ensures var h1 := HandleAfter(h, script, n, calls);
            && Consistent(h1) && Later(h, h1)
            && |Sent(RunCalls(h, script, n, calls))| <= |calls| * (4 * |h.scope| + 2)
    decreases |calls|
  {
    hide RunCall, Consistent;
    if calls != [] {
      var r := RunCall(h, script, n, calls[0]);
      CallKeeps(h, script, n, calls[0]);
      RunKeeps(r.handle, script, n + |r.record.trace|, calls[1..]);
      Distributes(|calls|, 4 * |h.scope| + 2);
    }
  }

  lemma Distributes(k: nat, m: nat)
    requires k > 0
    ensures k * m == m + (k - 1) * m
  {}

  // ---------------------------------------------------------------- requireSession over a run

  /**
   Visible on the wire: from the first request that requires its session on, every request that
   names a session requires it, and none requires one without naming it.
   */
  predicate Ratchet(tracking: bool, trace: seq<Exchange>)
    decreases |trace|
  {
    trace == [] ||
    ( var q := trace[0].request;
      && (q.requireSession ==> q.sessionId.Some?)
      && (tracking && q.sessionId.Some? ==> q.requireSession)
      && Ratchet(tracking || q.requireSession, trace[1..]))
  }

  predicate Demands(trace: seq<Exchange>) { exists x :: x in trace && x.request.requireSession }

  lemma {:induction false} RatchetConcat(tracking: bool, xs: seq<Exchange>, ys: seq<Exchange>)
    ensures Ratchet(tracking, xs + ys) <==> Ratchet(tracking, xs) && Ratchet(tracking || Demands(xs), ys)
    ensures Demands(xs + ys) <==> Demands(xs) || Demands(ys)
    decreases |xs|
  {
    if xs == [] {
      assert xs + ys == ys;
    } else {
      assert (xs + ys)[1..] == xs[1..] + ys;
      RatchetConcat(tracking || xs[0].request.requireSession, xs[1..], ys);
      assert forall x :: x in xs <==> x == xs[0] || x in xs[1..];
    }
  }

  /** The ratchet over one stretch of the protocol, and the state it rests on. */
  predicate Ratchets<T>(tracking: bool, r: Run<T>) {
    Ratchet(tracking, r.trace) && (tracking || Demands(r.trace) ==> r.handle.tracks == 1)
  }

  lemma OneRatchets(tracking: bool, h: Handle, x: Exchange, f: Failure, count: int)
    requires Consistent(h) && (tracking ==> h.tracks == 1)
    requires x.request == RequestFor(h, x.request.sql, count)
    ensures Ratchet(tracking, [x])
    ensures tracking || Demands([x]) ==> h.tracks == 1 && Post(h, f, x.moment.reply).handle.tracks == 1
  {
    hide Absorb;
    PostKeeps(h, f, x.moment.reply);
    assert [x][1..] == [];
  }

  lemma {:induction false} ApplyScopeRatchets(tracking: bool, h: Handle, f: Failure, script: Script, n: nat, i: nat,
                                             restarted: bool)
    requires Consistent(h) && (tracking ==> h.tracks == 1) && i <= |h.scope|
    ensures Ratchets(tracking, ApplyScope(h, f, script, n, i, restarted))
    decreases if restarted then 0 else 1, |h.scope| - i
  {
    hide Post, Ratchet, Demands, Consistent, Later;
    var r := ApplyScope(h, f, script, n, i, restarted);
    if i == |h.scope| {
      EmptyRatchets();
    } else {
      var x := Exchanged(h, Scope(i), h.scope[i].sql, COUNT_UNSET, script(n));
      var p := PostAt(h, f, script(n));
      PostKeeps(h, f, script(n).reply);
      LaterMeans(h, p.handle);
      OneRatchets(tracking, h, x, f, COUNT_UNSET);
      var rest := r.trace[1..];
      assert r.trace == [x] + rest;
      RatchetConcat(tracking, [x], rest);
      EmptyRatchets();
      match p.end {
        case Gone =>
          if !restarted {
            assert rest == ApplyScope(Forget(p.handle), p.failure, script, n + 1, 0, true).trace;
            ForgetKeeps(p.handle);
            ApplyScopeRatchets(tracking || Demands([x]), Forget(p.handle), p.failure, script, n + 1, 0, true);
          } else {
            assert rest == [];
          }
        case Failed =>
          if !h.scope[i].required && p.failure.state == HY000 {
            assert rest == ApplyScope(p.handle, Clean, script, n + 1, i + 1, restarted).trace;
            ApplyScopeRatchets(tracking || Demands([x]), p.handle, Clean, script, n + 1, i + 1, restarted);
          } else {
            assert rest == [];
          }
        case Answer(_) =>
          assert rest == ApplyScope(p.handle, p.failure, script, n + 1, i + 1, restarted).trace;
          ApplyScopeRatchets(tracking || Demands([x]), p.handle, p.failure, script, n + 1, i + 1, restarted);
      }
    }
  }

  lemma EmptyRatchets()
    ensures Ratchet(true, []) && Ratchet(false, []) && !Demands([])
  {}

  lemma LaterMeans(h: Handle, h1: Handle)
    requires Later(h, h1)
    ensures h1.scope == h.scope
  {}

  lemma ForgetKeeps(h: Handle)
    requires Consistent(h) && h.tracks == 1
    ensures Consistent(Forget(h))
  {}

  lemma SendAgainRatchets(tracking: bool, h: Handle, f: Failure, script: Script, n: nat, sql: string, count: int)
    requires Consistent(h) && (tracking ==> h.tracks == 1)
    ensures Ratchets(tracking, SendAgain(h, f, script, n, sql, count))
  {
    hide Post, Ratchet, Demands, Track;
    OneRatchets(tracking, h, Exchanged(h, Statement, sql, count, script(n)), f, count);
  }

  lemma SendStatementRatchets(tracking: bool, h: Handle, f: Failure, script: Script, n: nat, sql: string, count: int)
    requires Consistent(h) && (tracking ==> h.tracks == 1)
    ensures Ratchets(tracking, SendStatement(h, f, script, n, sql, count))
  {
    hide Post, Ratchet, Demands, Track, ApplyScope, SendAgain;
    var x := Exchanged(h, Statement, sql, count, script(n));
    var p := PostAt(h, f, script(n));
    OneRatchets(tracking, h, x, f, count);
    PostKeeps(h, f, script(n).reply);
    var (h1, f1, again) := SessionLost(p.handle, p.failure);
    if p.end.Gone? && again {
      var t1 := tracking || Demands([x]);
      var s := ApplyWholeScope(h1, f1, script, n + 1);
      ApplyScopeRatchets(t1, h1, f1, script, n + 1, 0, false);
      ApplyScopeKeeps(h1, f1, script, n + 1, 0, false);
      RatchetConcat(tracking, [x], s.trace);
      if s.result {
        var a := SendAgain(s.handle, s.failure, script, n + 1 + |s.trace|, sql, count);
        SendAgainRatchets(t1 || Demands(s.trace), s.handle, s.failure, script, n + 1 + |s.trace|, sql, count);
        RatchetConcat(tracking, [x] + s.trace, a.trace);
      }
    }
  }

  lemma ExecuteRatchets(tracking: bool, h: Handle, f: Failure, script: Script, n: nat, sql: string, count: int)
    requires Consistent(h) && (tracking ==> h.tracks == 1)
    ensures Ratchets(tracking, Execute(h, f, script, n, sql, count))
  {
    hide Post, Ratchet, Demands, Track, ApplyScope, SendStatement;
    if h.scopePending {
      var s := ApplyWholeScope(h, f, script, n);
      ApplyScopeRatchets(tracking, h, f, script, n, 0, false);
      ApplyScopeKeeps(h, f, script, n, 0, false);
      var t1 := tracking || Demands(s.trace);
      SendStatementRatchets(t1, s.handle, s.failure, script, n + |s.trace|, sql, count);
      RatchetConcat(tracking, s.trace, SendStatement(s.handle, s.failure, script, n + |s.trace|, sql, count).trace);
    } else {
      SendStatementRatchets(tracking, h, f, script, n, sql, count);
    }
  }

  /** The ratchet holds over every run, against any answers. */
  lemma {:induction false} RunRatchets(tracking: bool, h: Handle, script: Script, n: nat, calls: seq<Call>)
    requires Consistent(h) && (tracking ==> h.tracks == 1)
    ensures Ratchet(tracking, Sent(RunCalls(h, script, n, calls)))
    decreases |calls|
  {
    hide Post, Ratchet, Demands, Execute;
    EmptyRatchets();
    if calls != [] {
      var r := RunCall(h, script, n, calls[0]);
      CallKeeps(h, script, n, calls[0]);
      match calls[0] {
        case Ask(sql, count) => ExecuteRatchets(tracking, h, Clean, script, n, sql, count);
        case Check(_) =>
          ExecuteRatchets(tracking, h, Clean, script, n, PROBE, COUNT_UNSET);
          OneRatchets(tracking, h, Exchanged(h, Probe, PROBE, COUNT_UNSET, script(n)), Clean, COUNT_UNSET);
      }
      var t1 := tracking || Demands(r.record.trace);
      RatchetConcat(tracking, r.record.trace, Sent(RunCalls(r.handle, script, n + |r.record.trace|, calls[1..])));
      RunRatchets(t1, r.handle, script, n + |r.record.trace|, calls[1..]);
    }
  }
}
