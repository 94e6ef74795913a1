/**
 What a call answers and what it sends, read off its exchanges: the answer is the tree of the last
 one, a failure is explained by the last one, and every request carries what its origin says.
 */
module Answers {
  import opened CText
  import opened Tracker
  import opened Json
  import opened Session
  import Losses

  // ---------------------------------------------------------------- what every request carries

  /** The request of an exchange carries its origin's text and count, and the connection's mode. */
  predicate Carries(x: Exchange, autoCommit: bool, scope: seq<ScopeEntry>, sql: string, count: int) {
    && x.request.autoCommit == autoCommit
    && match x.origin
       case Statement =>
         && x.request.sql == sql
         && (count >= 0 ==> x.request.count == Some(count)) && (count < 0 ==> x.request.count == None)
       case Scope(i) => i < |scope| && x.request.sql == scope[i].sql && x.request.count == None
       case Probe => false
  }

  /** From request `n` on the trace is what the script tells, each request carrying what it should. */
  predicate Follows(trace: seq<Exchange>, script: Script, n: nat, autoCommit: bool, scope: seq<ScopeEntry>,
                    sql: string, count: int) {
    forall k :: 0 <= k < |trace| ==>
      trace[k].moment == script(n + k) && Carries(trace[k], autoCommit, scope, sql, count)
  }

  lemma FollowsConcat(xs: seq<Exchange>, ys: seq<Exchange>, script: Script, n: nat, autoCommit: bool,
                      scope: seq<ScopeEntry>, sql: string, count: int)
    requires Follows(xs, script, n, autoCommit, scope, sql, count)
    requires Follows(ys, script, n + |xs|, autoCommit, scope, sql, count)
    ensures Follows(xs + ys, script, n, autoCommit, scope, sql, count)
  {
    hide Carries;
    forall k | 0 <= k < |xs + ys|
      ensures (xs + ys)[k].moment == script(n + k) && Carries((xs + ys)[k], autoCommit, scope, sql, count)
    {
      if k >= |xs| {
        assert (xs + ys)[k] == ys[k - |xs|];
      }
    }
  }

  lemma PostSettings(h: Handle, f: Failure, reply: Reply)
    ensures Post(h, f, reply).handle.autoCommit == h.autoCommit
    ensures Post(h, f, reply).handle.scope == h.scope
    ensures Post(h, f, reply).end.Failed? ==> Post(h, f, reply).failure.Failure?
  {}

  lemma {:induction false} ApplyScopeFollows(h: Handle, f: Failure, script: Script, n: nat, i: nat, restarted: bool,
                                            sql: string, count: int)
    requires i <= |h.scope|
    ensures var r := ApplyScope(h, f, script, n, i, restarted);
            && Follows(r.trace, script, n, h.autoCommit, h.scope, sql, count)
            && r.handle.autoCommit == h.autoCommit && r.handle.scope == h.scope
    decreases if restarted then 0 else 1, |h.scope| - i
  {
    hide Post, Follows;
    var r := ApplyScope(h, f, script, n, i, restarted);
    if i == |h.scope| {
      NothingFollows(script, n, h, sql, count);
    } else {
      var x := Exchanged(h, Scope(i), h.scope[i].sql, COUNT_UNSET, script(n));
      var p := PostAt(h, f, script(n));
      PostSettings(h, f, script(n).reply);
      OneFollows(x, script, n, h, sql, count);
      match p.end {
        case Gone =>
          if !restarted {
            var rest := ApplyScope(Forget(p.handle), p.failure, script, n + 1, 0, true);
            ApplyScopeFollows(Forget(p.handle), p.failure, script, n + 1, 0, true, sql, count);
            FollowsConcat([x], rest.trace, script, n, h.autoCommit, h.scope, sql, count);
          }
        case Failed =>
          if !h.scope[i].required && p.failure.state == HY000 {
            var rest := ApplyScope(p.handle, Clean, script, n + 1, i + 1, restarted);
            ApplyScopeFollows(p.handle, Clean, script, n + 1, i + 1, restarted, sql, count);
            FollowsConcat([x], rest.trace, script, n, h.autoCommit, h.scope, sql, count);
          }
        case Answer(_) =>
          var rest := ApplyScope(p.handle, p.failure, script, n + 1, i + 1, restarted);
          ApplyScopeFollows(p.handle, p.failure, script, n + 1, i + 1, restarted, sql, count);
          FollowsConcat([x], rest.trace, script, n, h.autoCommit, h.scope, sql, count);
      }
    }
  }

  lemma NothingFollows(script: Script, n: nat, h: Handle, sql: string, count: int)
    ensures Follows([], script, n, h.autoCommit, h.scope, sql, count)
  {}

  lemma OneFollows(x: Exchange, script: Script, n: nat, h: Handle, sql: string, count: int)
    requires x.moment == script(n) && Carries(x, h.autoCommit, h.scope, sql, count)
    ensures Follows([x], script, n, h.autoCommit, h.scope, sql, count)
  {}

  lemma SendAgainFollows(h: Handle, f: Failure, script: Script, n: nat, sql: string, count: int)
    ensures Follows(SendAgain(h, f, script, n, sql, count).trace, script, n, h.autoCommit, h.scope, sql, count)
  {
    hide Post, Track, Follows;
    OneFollows(Exchanged(h, Statement, sql, count, script(n)), script, n, h, sql, count);
  }

  lemma SendStatementFollows(h: Handle, f: Failure, script: Script, n: nat, sql: string, count: int)
    ensures Follows(SendStatement(h, f, script, n, sql, count).trace, script, n, h.autoCommit, h.scope, sql, count)
  {
    hide Post, Track, Follows, ApplyScope, SendAgain;
    var x := Exchanged(h, Statement, sql, count, script(n));
    var p := PostAt(h, f, script(n));
    PostSettings(h, f, script(n).reply);
    OneFollows(x, script, n, h, sql, count);
    var (h1, f1, again) := SessionLost(p.handle, p.failure);
    if p.end.Gone? && again {
      var s := ApplyWholeScope(h1, f1, script, n + 1);
      ApplyScopeFollows(h1, f1, script, n + 1, 0, false, sql, count);
      FollowsConcat([x], s.trace, script, n, h.autoCommit, h.scope, sql, count);
      if s.result {
        var a := SendAgain(s.handle, s.failure, script, n + 1 + |s.trace|, sql, count);
        SendAgainFollows(s.handle, s.failure, script, n + 1 + |s.trace|, sql, count);
        FollowsConcat([x] + s.trace, a.trace, script, n, h.autoCommit, h.scope, sql, count);
      }
    }
  }

  /**
   Every request of a call carries its own text: the statement its SQL and its count exactly when one
   is declared, a USE of the scope its entry and never a count, all of them the connection's mode.
   */
  lemma ExecuteFollows(h: Handle, f: Failure, script: Script, n: nat, sql: string, count: int)
    ensures Follows(Execute(h, f, script, n, sql, count).trace, script, n, h.autoCommit, h.scope, sql, count)
  {
    hide Post, Track, Follows, ApplyScope, SendStatement;
    if h.scopePending {
      var s := ApplyWholeScope(h, f, script, n);
      ApplyScopeFollows(h, f, script, n, 0, false, sql, count);
      if s.result {
        var a := SendStatement(s.handle, s.failure, script, n + |s.trace|, sql, count);
        SendStatementFollows(s.handle, s.failure, script, n + |s.trace|, sql, count);
        FollowsConcat(s.trace, a.trace, script, n, h.autoCommit, h.scope, sql, count);
      }
    } else {
      SendStatementFollows(h, f, script, n, sql, count);
    }
  }

  // ---------------------------------------------------------------- what a call answers

  /** Why the last request of a failed call failed, in the words of its answer. */
  predicate Explains(reply: Reply, f: Failure) {
    match reply
    case Silent(timedOut) => f == if timedOut then Failure(HYT00, TimedOut) else Failure(S08S01, Unreachable)
    case Garbled(status) => f == Failure(S08S01, Unreadable(status))
    case Reply(status, success, _, _, message, _) =>
      && !success && f.Failure? && (f.state == HY000 <==> status == 200 || status == 400)
      && (status != 200 && status != 400 ==> f.state == S08S01)
      && (message.Some? ==> f.why == Refused(message.value))
      && (message.None? ==> f.why == Refused("The statement failed"))
  }

  /** A failed stretch is explained by its last exchange: gone is 08003, anything else speaks for itself. */
  predicate FailsBy(trace: seq<Exchange>, f: Failure) {
    trace != [] &&
    var x := trace[|trace| - 1];
    if Losses.IsGone(x) then Losses.Is08003(f) else Explains(x.moment.reply, f)
  }

  /** The last exchange is the call's own statement, and its answer a success with this tree. */
  predicate AnsweredBy(trace: seq<Exchange>, tree: Json) {
    trace != [] &&
    var x := trace[|trace| - 1];
    x.origin.Statement? && x.moment.reply.Reply? && x.moment.reply.success && x.moment.reply.tree == tree
  }

  lemma PostAnswers(h: Handle, f: Failure, x: Exchange, count: int)
    requires x.request == RequestFor(h, x.request.sql, count)
    ensures var p := PostAt(h, f, x.moment);
            match p.end
            case Answer(tree) =>
              !Losses.IsGone(x) && x.moment.reply.Reply? && x.moment.reply.success && x.moment.reply.tree == tree
            case Failed => !Losses.IsGone(x) && Explains(x.moment.reply, p.failure)
            case Gone => Losses.IsGone(x)
  {}

  lemma LastOf(xs: seq<Exchange>, ys: seq<Exchange>)
    requires ys != []
    ensures (xs + ys)[|xs + ys| - 1] == ys[|ys| - 1]
  {}

  lemma {:induction false} ApplyScopeFails(h: Handle, f: Failure, script: Script, n: nat, i: nat, restarted: bool)
    requires i <= |h.scope|
    ensures var r := ApplyScope(h, f, script, n, i, restarted);
            !r.result ==> FailsBy(r.trace, r.failure)
    decreases if restarted then 0 else 1, |h.scope| - i
  {
    hide Post, Losses.IsGone, Explains;
    if i < |h.scope| {
      var x := Exchanged(h, Scope(i), h.scope[i].sql, COUNT_UNSET, script(n));
      var p := PostAt(h, f, script(n));
      PostSettings(h, f, script(n).reply);
      PostAnswers(h, f, x, COUNT_UNSET);
      match p.end {
        case Gone =>
          if !restarted {
            var rest := ApplyScope(Forget(p.handle), p.failure, script, n + 1, 0, true);
            ApplyScopeFails(Forget(p.handle), p.failure, script, n + 1, 0, true);
            if !rest.result {
              LastOf([x], rest.trace);
            }
          }
        case Failed =>
          if !h.scope[i].required && p.failure.state == HY000 {
            var rest := ApplyScope(p.handle, Clean, script, n + 1, i + 1, restarted);
            ApplyScopeFails(p.handle, Clean, script, n + 1, i + 1, restarted);
            if !rest.result {
              LastOf([x], rest.trace);
            }
          }
        case Answer(_) =>
          var rest := ApplyScope(p.handle, p.failure, script, n + 1, i + 1, restarted);
          ApplyScopeFails(p.handle, p.failure, script, n + 1, i + 1, restarted);
          if !rest.result {
            LastOf([x], rest.trace);
          }
      }
    }
  }

  /** How a statement comes out is decided by its last exchange. */
  predicate Decided(r: Run<Option<Json>>) {
    match r.result
    case Some(tree) => AnsweredBy(r.trace, tree)
    case None => FailsBy(r.trace, r.failure)
  }

  lemma DecidedAfter(r: Run<Option<Json>>, earlier: seq<Exchange>)
    requires Decided(r)
    ensures Decided(r.After(earlier))
  {
    hide Losses.IsGone, Explains;
    LastOf(earlier, r.trace);
  }

  lemma SendAgainDecided(h: Handle, f: Failure, script: Script, n: nat, sql: string, count: int)
    ensures Decided(SendAgain(h, f, script, n, sql, count))
  {
    hide Post, Track, Losses.IsGone, Explains;
    PostAnswers(h, f, Exchanged(h, Statement, sql, count, script(n)), count);
  }

  lemma SendStatementDecided(h: Handle, f: Failure, script: Script, n: nat, sql: string, count: int)
    ensures Decided(SendStatement(h, f, script, n, sql, count))
  {
    hide Post, Track, Losses.IsGone, Explains, ApplyScope, SendAgain;
    var x := Exchanged(h, Statement, sql, count, script(n));
    var p := PostAt(h, f, script(n));
    PostAnswers(h, f, x, count);
    var (h1, f1, again) := SessionLost(p.handle, p.failure);
    if p.end.Gone? && again {
      var s := ApplyWholeScope(h1, f1, script, n + 1);
      ApplyScopeFails(h1, f1, script, n + 1, 0, false);
      if s.result {
        SendAgainDecided(s.handle, s.failure, script, n + 1 + |s.trace|, sql, count);
        DecidedAfter(SendAgain(s.handle, s.failure, script, n + 1 + |s.trace|, sql, count), [x] + s.trace);
      } else {
        LastOf([x], s.trace);
      }
    }
  }

  /**
   What execute answers: the parsed tree of the last exchange, which is the call's own statement and
   a success; or no response, and a failure that the last exchange explains.
   */
  lemma ExecuteAnswers(h: Handle, f: Failure, script: Script, n: nat, sql: string, count: int)
    ensures Decided(Execute(h, f, script, n, sql, count))
  {
    hide Decided, ApplyScope, SendStatement;
    if h.scopePending {
      var s := ApplyWholeScope(h, f, script, n);
      ApplyScopeFails(h, f, script, n, 0, false);
      if s.result {
        SendStatementDecided(s.handle, s.failure, script, n + |s.trace|, sql, count);
        DecidedAfter(SendStatement(s.handle, s.failure, script, n + |s.trace|, sql, count), s.trace);
      } else {
        FailedIsDecided(Execute(h, f, script, n, sql, count));
      }
    } else {
      SendStatementDecided(h, f, script, n, sql, count);
    }
  }

  lemma FailedIsDecided(r: Run<Option<Json>>)
    requires r.result.None? && FailsBy(r.trace, r.failure)
    ensures Decided(r)
  {}

  /** A response is the tree of the last exchange, whose request carried the call's SQL, count and mode. */
  lemma ResponseOfStatement(h: Handle, f: Failure, script: Script, n: nat, sql: string, count: int)
    ensures var r := Execute(h, f, script, n, sql, count);
            r.result.Some? ==>
              r.trace != [] &&
              var x := r.trace[|r.trace| - 1];
              && x.origin == Statement && x.moment == script(n + |r.trace| - 1)
              && x.moment.reply.Reply? && x.moment.reply.success && x.moment.reply.tree == r.result.value
              && x.request.sql == sql && x.request.autoCommit == h.autoCommit
              && (count >= 0 ==> x.request.count == Some(count)) && (count < 0 ==> x.request.count == None)
  {
    hide Execute;
    ExecuteAnswers(h, f, script, n, sql, count);
    ExecuteFollows(h, f, script, n, sql, count);
  }

  // ---------------------------------------------------------------- what an answer's body says

  /** The body of an HTTP answer is this tree, an object that says success. */
  predicate SaysSuccess(o: Outcome, tree: Json) {
    && o.Answered? && Parse(CStr(o.body)) == Some(tree)
    && tree.Object? && Get(tree, "success") == Some(Bool(true))
  }

  lemma SuccessIsSaid(o: Outcome)
    requires ReadReply(o).Reply? && ReadReply(o).success
    ensures SaysSuccess(o, ReadReply(o).tree)
  {
    hide Parse, CStr, Find;
  }

  /** What execute answers is what the last body of the network says. */
  lemma AnswerIsSaid(outcomes: nat -> Outcome, h: Handle, f: Failure, script: Script, n: nat, sql: string, count: int)
    requires forall k :: script(k).reply == ReadReply(outcomes(k))
    ensures var r := Execute(h, f, script, n, sql, count);
            r.result.Some? ==> r.trace != [] && SaysSuccess(outcomes(n + |r.trace| - 1), r.result.value)
  {
    hide Execute, ReadReply, SaysSuccess, Carries;
    var r := Execute(h, f, script, n, sql, count);
    ExecuteAnswers(h, f, script, n, sql, count);
    ExecuteFollows(h, f, script, n, sql, count);
    if r.result.Some? {
      var last := n + |r.trace| - 1;
      assert r.trace[|r.trace| - 1].moment == script(last);
      SuccessIsSaid(outcomes(last));
    }
  }

  /** The first member of a key is the one that is found. */
  lemma {:induction false} FirstMemberIsFound(before: seq<Member>, m: Member, after: seq<Member>)
    requires forall x :: x in before ==> CStr(x.key) != CStr(m.key)
    ensures Get(Object(before + [m] + after), CStr(m.key)) == Some(m.value)
    decreases |before|
  {
    hide CStr;
    var members := before + [m] + after;
    if before == [] {
      assert members[0] == m;
    } else {
      assert members[0] == before[0] && members[1..] == before[1..] + [m] + after;
      assert before[0] in before;
      FirstMemberIsFound(before[1..], m, after);
    }
  }

  /** The fields of an answer are read from the members of these names, whatever else it holds. */
  lemma AnswerIsRead(status: int, body: string, success: bool, id: string, started: bool, message: string,
                     more: seq<Member>, tree: Json)
    requires tree == Object([Member("success", Bool(success)), Member("sessionId", String(id)),
                             Member("newSession", Bool(started)), Member("errorMessage", String(message))] + more)
    requires Parse(CStr(body)) == Some(tree)
    ensures ReadReply(Answered(status, body))
         == Reply(status, success, Some(CStr(id)), Some(started), Some(CStr(message)), tree)
  {
    hide Parse, CStr;
    var a, b, c, d := Member("success", Bool(success)), Member("sessionId", String(id)),
                      Member("newSession", Bool(started)), Member("errorMessage", String(message));
    KeysAreCStrings();
    assert tree.members == [] + [a] + ([b, c, d] + more);
    FirstMemberIsFound([], a, [b, c, d] + more);
    assert tree.members == [a] + [b] + ([c, d] + more);
    FirstMemberIsFound([a], b, [c, d] + more);
    assert tree.members == [a, b] + [c] + ([d] + more);
    FirstMemberIsFound([a, b], c, [d] + more);
    assert tree.members == [a, b, c] + [d] + more;
    FirstMemberIsFound([a, b, c], d, more);
  }

  /** A server fault that never reached a statement: only `error`. */
  lemma FaultIsRead(status: int, body: string, message: string)
    requires Parse(CStr(body)) == Some(Object([Member("error", String(message))]))
    ensures ReadReply(Answered(status, body))
         == Reply(status, false, None, None, Some(CStr(message)), Object([Member("error", String(message))]))
  {
    hide Parse, CStr, Get;
    KeysAreCStrings();
    var m := Member("error", String(message));
    OnlyMember(m, "success");
    OnlyMember(m, "sessionId");
    OnlyMember(m, "newSession");
    OnlyMember(m, "errorMessage");
    OnlyMember(m, "error");
  }

  lemma OnlyMember(m: Member, key: string)
    ensures Get(Object([m]), key) == if CStr(m.key) == key then Some(m.value) else None
  {
    hide CStr;
    assert [m][1..] == [] && Find([], key) == None;
  }

  lemma KeysAreCStrings()
    ensures CStr("success") == "success" && CStr("sessionId") == "sessionId" && CStr("newSession") == "newSession"
    ensures CStr("errorMessage") == "errorMessage" && CStr("error") == "error"
  {
    hide CStr;
    CStrOfNulFree("success");
    CStrOfNulFree("sessionId");
    CStrOfNulFree("newSession");
    CStrOfNulFree("errorMessage");
    CStrOfNulFree("error");
  }

  /** No answer, and answers that are no JSON object. */
  lemma OtherOutcomesAreRead(status: int, body: string, timedOut: bool)
    requires Parse(CStr(body)).None? || !Parse(CStr(body)).value.Object?
    ensures ReadReply(Answered(status, body)) == Garbled(status) && ReadReply(NoAnswer(timedOut)) == Silent(timedOut)
  {
    hide Parse, CStr;
  }

  // ---------------------------------------------------------------- a session replaced by the engine

  /** The last exchange moved the handle to its session. */
  predicate Moved(r: Run<Option<Json>>, autoCommit: bool, sql: string) {
    r.result.Some? ==>
      r.trace != [] &&
      var x := r.trace[|r.trace| - 1];
      x.moment.reply.Reply? &&
      (x.moment.reply.sessionId.Some? ==>
         && r.handle.sessionId == x.moment.reply.sessionId
         && (x.moment.reply.started.Some? ==> r.handle.tracks == 1)
         && (x.moment.reply.started == Some(true) && x.request.sessionId.Some? ==>
               r.handle.scopePending && r.handle.flags == Track(NOTHING_HELD, autoCommit, sql)))
  }

  lemma SendAgainMoves(h: Handle, f: Failure, script: Script, n: nat, sql: string, count: int)
    ensures Moved(SendAgain(h, f, script, n, sql, count), h.autoCommit, sql)
  {
    hide Track;
  }

  lemma SendStatementMoves(h: Handle, f: Failure, script: Script, n: nat, sql: string, count: int)
    ensures Moved(SendStatement(h, f, script, n, sql, count), h.autoCommit, sql)
  {
    hide Track, ApplyScope, SendAgain;
    var p := PostAt(h, f, script(n));
    PostSettings(h, f, script(n).reply);
    var (h1, f1, again) := SessionLost(p.handle, p.failure);
    if p.end.Gone? && again {
      var s := ApplyWholeScope(h1, f1, script, n + 1);
      ApplyScopeFollows(h1, f1, script, n + 1, 0, false, sql, count);
      if s.result {
        var a := SendAgain(s.handle, s.failure, script, n + 1 + |s.trace|, sql, count);
        SendAgainMoves(s.handle, s.failure, script, n + 1 + |s.trace|, sql, count);
        if a.trace != [] {
          LastOf([Exchanged(h, Statement, sql, count, script(n))] + s.trace, a.trace);
        }
      }
    }
  }

  /**
   An answer that names a session is followed there. If it says that the session was started in place
   of the one the request named, nothing is held but what the statement itself leaves, and the scope
   goes on before the next statement.
   */
  lemma AnswerMovesSession(h: Handle, f: Failure, script: Script, n: nat, sql: string, count: int)
    ensures Moved(Execute(h, f, script, n, sql, count), h.autoCommit, sql)
  {
    hide Track, ApplyScope, SendStatement;
    if h.scopePending {
      var s := ApplyWholeScope(h, f, script, n);
      ApplyScopeFollows(h, f, script, n, 0, false, sql, count);
      if s.result {
        var a := SendStatement(s.handle, s.failure, script, n + |s.trace|, sql, count);
        SendStatementMoves(s.handle, s.failure, script, n + |s.trace|, sql, count);
        if a.trace != [] {
          LastOf(s.trace, a.trace);
        }
      }
    } else {
      SendStatementMoves(h, f, script, n, sql, count);
    }
  }

  // ---------------------------------------------------------------- liveness checks

  /** With no session and none owed, a check asks the server's health and nothing else. */
  lemma IdleCheckSendsNothing(h: Handle, script: Script, n: nat, healthy: bool)
    requires h.sessionId.None? && !h.scopePending
    ensures var r := SessionAlive(h, Clean, script, n, healthy);
            && r.trace == [] && r.handle == h && r.result == healthy
            && (healthy <==> r.failure.Clean?) && (!healthy ==> r.failure.state == S08001)
  {}

  /** A check of a session that holds something sends one SELECT 1 there and never replaces the session. */
  lemma HeldCheckReplacesNothing(h: Handle, script: Script, n: nat, healthy: bool)
    requires h.flags.Any() && h.sessionId.Some?
    ensures var r := SessionAlive(h, Clean, script, n, healthy);
            && |r.trace| == 1 && r.trace[0].request.sql == "SELECT 1" && r.trace[0].request.count == None
            && r.trace[0].request.sessionId == h.sessionId && r.trace[0].moment == script(n)
            && (r.result <==> script(n).reply.Reply? && script(n).reply.success)
            && (Losses.IsGone(r.trace[0]) ==> r.handle == h)
  {}

  /** A check of a session that holds nothing is a SELECT 1 like any other statement, a loss repaired. */
  lemma FreeCheckIsAStatement(h: Handle, script: Script, n: nat, healthy: bool, sql: string)
    requires !h.flags.Any() && (h.sessionId.Some? || h.scopePending) && sql == "SELECT 1"
    ensures var r := SessionAlive(h, Clean, script, n, healthy);
            var e := Execute(h, Clean, script, n, sql, COUNT_UNSET);
            r.handle == e.handle && r.trace == e.trace && r.failure == e.failure && r.result == e.result.Some?
  {
    hide Execute;
  }
}
