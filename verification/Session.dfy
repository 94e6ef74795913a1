/**
 The session protocol of src/frostlake_wire.c as functions of the handle and of what the network
 gives back. A script tells, request by request, what came back; everything in this module holds
 for any script at all. `Engine` says what an engine that honours its contract may put in one.
 */
module Session {
  import opened CText
  import opened Tracker
  import opened Json

  // ---------------------------------------------------------------- the handle

  /** One of the data source's USE statements, and whether the engine must accept it. */
  datatype ScopeEntry = ScopeEntry(sql: string, required: bool)

  const SCOPE_MAX := 4

  /** The protocol's part of pdo_frostlake_db_handle. `tracks` is tracks_sessions: -1, 0 or 1. */
  datatype Handle = Handle(
    sessionId: Option<string>,
    tracks: int,
    flags: Flags,
    scope: seq<ScopeEntry>,
    scopePending: bool,
    autoCommit: bool)

  // ---------------------------------------------------------------- failures

  datatype SqlState = HY000 | HYT00 | S08S01 | S08003 | S08001

  datatype Reason =
    | Closed
    | TimedOut
    | Unreachable
    | Unreadable(status: int)
    | Refused(message: string)
    | TransactionLost
    | ContextLost
    | FreshSessionRefused
    | Unhealthy
    | NotAnIdentifier(kind: string, name: string)

  /** The failure slot of a statement or of the connection. */
  datatype Failure = Clean | Failure(state: SqlState, why: Reason)

  // ---------------------------------------------------------------- requests and answers

  /** What POST /api/execute carries; `count` is the declared statement count. */
  datatype Request = Request(
    sql: string,
    sessionId: Option<string>,
    requireSession: bool,
    count: Option<nat>,
    autoCommit: bool)

  const COUNT_UNSET := -1

  /** What the HTTP call comes back with. */
  datatype Outcome = NoAnswer(timedOut: bool) | Answered(status: int, body: string)

  /** What the driver reads in it. `started` is `newSession` where it is a boolean. */
  datatype Reply =
    | Silent(timedOut: bool)
    | Garbled(status: int)
    | Reply(status: int, success: bool, sessionId: Option<string>, started: Option<bool>,
            message: Option<string>, tree: Json)

  function ReadReply(o: Outcome): (r: Reply)
    ensures r.Silent? <==> o.NoAnswer?
  {
    match o
    case NoAnswer(timedOut) => Silent(timedOut)
    case Answered(status, body) =>
      match Parse(CStr(body))
      case None => Garbled(status)
      case Some(tree) =>
        if !tree.Object? then Garbled(status)
        else
          Reply(status, GetBool(tree, "success", false), GetString(tree, "sessionId"),
                match Get(tree, "newSession") case Some(Bool(b)) => Some(b) case _ => None,
                match GetString(tree, "errorMessage")
                case Some(m) => Some(m)
                case None => GetString(tree, "error"),
                tree)
  }

  // ---------------------------------------------------------------- one request

  function RequestFor(h: Handle, sql: string, count: int): Request {
    Request(sql, h.sessionId, h.sessionId.Some? && h.tracks == 1,
            if count >= 0 then Some(count) else None, h.autoCommit)
  }

  /** forget_session. */
  function Forget(h: Handle): Handle {
    h.(sessionId := None, flags := NOTHING_HELD, scopePending := true)
  }

  /** absorb, of an answer to a request that named a session or did not. */
  function Absorb(h: Handle, sessionId: Option<string>, started: Option<bool>, sentId: bool): Handle {
    if sessionId.None? then h
    else
      var h1 :=
        if started.Some? then
          if sentId && started.value then Forget(h.(tracks := 1)) else h.(tracks := 1)
        else if h.tracks < 0 then h.(tracks := 0)
        else h;
      h1.(sessionId := sessionId)
  }

  /** How a post ends: with an answer, with a failure recorded, or with the session gone. */
  datatype PostEnd = Answer(tree: Json) | Failed | Gone

  datatype Posted = Posted(handle: Handle, failure: Failure, end: PostEnd)

  /** post, given what came back. */
  function Post(h: Handle, f: Failure, reply: Reply): Posted {
    var sentId := h.sessionId.Some?;
    var requires_ := sentId && h.tracks == 1;
    match reply
    case Silent(timedOut) =>
      Posted(h, if timedOut then Failure(HYT00, TimedOut) else Failure(S08S01, Unreachable), Failed)
    case Garbled(status) => Posted(h, Failure(S08S01, Unreadable(status)), Failed)
    case Reply(status, success, sessionId, started, message, tree) =>
      if success then Posted(Absorb(h, sessionId, started, sentId), f, Answer(tree))
      else if status == 404 && requires_ && sessionId.None? then Posted(h, f, Gone)
      else
        Posted(Absorb(h, sessionId, started, sentId),
               Failure(if status == 200 || status == 400 then HY000 else S08S01,
                       Refused(if message.Some? then message.value else "The statement failed")),
               Failed)
  }

  // ---------------------------------------------------------------- runs of requests

  /** Why a request is sent: an entry of the scope, a statement given to execute, or a probe. */
  datatype Origin = Scope(index: nat) | Statement | Probe

  /** What was read back for one request, and the session in which the engine ran it, if it did. */
  datatype Moment = Moment(reply: Reply, ran: Option<string>)

  type Script = nat -> Moment

  /** One request sent. The driver sees `moment.reply` and never `moment.ran`. */
  datatype Exchange = Exchange(origin: Origin, request: Request, moment: Moment)

  function Exchanged(h: Handle, origin: Origin, sql: string, count: int, m: Moment): Exchange {
    Exchange(origin, RequestFor(h, sql, count), m)
  }

  function PostAt(h: Handle, f: Failure, m: Moment): Posted { Post(h, f, m.reply) }

  /** A stretch of the protocol: the state it leaves, the requests it sent, how it ended. */
  datatype Run<T> = Run(handle: Handle, failure: Failure, trace: seq<Exchange>, result: T) {
    function After(earlier: seq<Exchange>): Run<T> { this.(trace := earlier + trace) }
  }

  /** apply_scope from entry `i` on; `n` requests were sent before. */
  function ApplyScope(h: Handle, f: Failure, script: Script, n: nat, i: nat, restarted: bool): Run<bool>
    requires i <= |h.scope|
    decreases if restarted then 0 else 1, |h.scope| - i
  {
    if i == |h.scope| then Run(h.(scopePending := false), f, [], true)
    else
      var x := Exchanged(h, Scope(i), h.scope[i].sql, COUNT_UNSET, script(n));
      var p := PostAt(h, f, script(n));
      match p.end
      case Gone =>
        if restarted then Run(Forget(p.handle), Failure(S08003, FreshSessionRefused), [x], false)
        else ApplyScope(Forget(p.handle), p.failure, script, n + 1, 0, true).After([x])
      case Failed =>
        if !h.scope[i].required && p.failure.state == HY000 then
          ApplyScope(p.handle, Clean, script, n + 1, i + 1, restarted).After([x])
        else Run(p.handle, p.failure, [x], false)
      case Answer(_) =>
        ApplyScope(p.handle, p.failure, script, n + 1, i + 1, restarted).After([x])
  }

  function ApplyWholeScope(h: Handle, f: Failure, script: Script, n: nat): Run<bool> {
    ApplyScope(h, f, script, n, 0, false)
  }

  /** session_lost: whether the statement may be sent once more. */
  function SessionLost(h: Handle, f: Failure): (Handle, Failure, bool) {
    if h.flags.inTransaction then (Forget(h), Failure(S08003, TransactionLost), false)
    else if h.flags.dirty then (Forget(h), Failure(S08003, ContextLost), false)
    else (Forget(h), f, true)
  }

  function Tracked(h: Handle, sql: string): Handle {
    h.(flags := Track(h.flags, h.autoCommit, sql))
  }

  /** The second and last post of a statement, on the session that replaced the lost one. */
  function SendAgain(h: Handle, f: Failure, script: Script, n: nat, sql: string, count: int): Run<Option<Json>> {
    var x := Exchanged(h, Statement, sql, count, script(n));
    var p := PostAt(h, f, script(n));
    match p.end
    case Gone => Run(Forget(p.handle), Failure(S08003, FreshSessionRefused), [x], None)
    case Failed => Run(p.handle, p.failure, [x], None)
    case Answer(tree) => Run(Tracked(p.handle, sql), p.failure, [x], Some(tree))
  }

  /** pdo_frostlake_execute once the scope is on. */
  function SendStatement(h: Handle, f: Failure, script: Script, n: nat, sql: string, count: int): Run<Option<Json>> {
    var x := Exchanged(h, Statement, sql, count, script(n));
    var p := PostAt(h, f, script(n));
    match p.end
    case Answer(tree) => Run(Tracked(p.handle, sql), p.failure, [x], Some(tree))
    case Failed => Run(p.handle, p.failure, [x], None)
    case Gone =>
      var (h1, f1, again) := SessionLost(p.handle, p.failure);
      if !again then Run(h1, f1, [x], None)
      else
        var r := ApplyWholeScope(h1, f1, script, n + 1);
        if !r.result then Run(r.handle, r.failure, [x] + r.trace, None)
        else SendAgain(r.handle, r.failure, script, n + 1 + |r.trace|, sql, count).After([x] + r.trace)
  }

  /** pdo_frostlake_execute on an open connection. */
  function Execute(h: Handle, f: Failure, script: Script, n: nat, sql: string, count: int): Run<Option<Json>> {
    if h.scopePending then
      var r := ApplyWholeScope(h, f, script, n);
      if !r.result then Run(r.handle, r.failure, r.trace, None)
      else SendStatement(r.handle, r.failure, script, n + |r.trace|, sql, count).After(r.trace)
    else SendStatement(h, f, script, n, sql, count)
  }

  const PROBE := "SELECT 1"

  /** pdo_frostlake_session_alive; `healthy` is what the health check answers where it is asked. */
  function SessionAlive(h: Handle, f: Failure, script: Script, n: nat, healthy: bool): Run<bool> {
    if h.sessionId.None? && !h.scopePending then
      Run(h, if healthy then f else Failure(S08001, Unhealthy), [], healthy)
    else if !h.flags.Any() then
      var r := Execute(h, f, script, n, PROBE, COUNT_UNSET);
      Run(r.handle, r.failure, r.trace, r.result.Some?)
    else
      var p := PostAt(h, f, script(n));
      Run(p.handle, p.failure, [Exchanged(h, Probe, PROBE, COUNT_UNSET, script(n))], p.end.Answer?)
  }

  // ---------------------------------------------------------------- whole runs

  /** What a caller does with an open connection. */
  datatype Call = Ask(sql: string, count: int) | Check(healthy: bool)

  /** One call: the requests it sent, whether it succeeded, and the failure it left. */
  datatype Record = Record(call: Call, trace: seq<Exchange>, success: bool, failure: Failure)

  datatype CallRun = CallRun(handle: Handle, record: Record)

  /** A call starts with a clean failure slot. */
  function RunCall(h: Handle, script: Script, n: nat, call: Call): CallRun {
    match call
    case Ask(sql, count) =>
      var r := Execute(h, Clean, script, n, sql, count);
      CallRun(r.handle, Record(call, r.trace, r.result.Some?, r.failure))
    case Check(healthy) =>
      var r := SessionAlive(h, Clean, script, n, healthy);
      CallRun(r.handle, Record(call, r.trace, r.result, r.failure))
  }

  function RunCalls(h: Handle, script: Script, n: nat, calls: seq<Call>): (records: seq<Record>)
    ensures |records| == |calls|
    decreases |calls|
  {
    if calls == [] then []
    else
      var r := RunCall(h, script, n, calls[0]);
      [r.record] + RunCalls(r.handle, script, n + |r.record.trace|, calls[1..])
  }

  /** Every request of a run, in order. */
  function Sent(records: seq<Record>): seq<Exchange> {
    if records == [] then [] else records[0].trace + Sent(records[1..])
  }
}
