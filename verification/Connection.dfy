/**
 The driver of src/frostlake_wire.c and the tracker's loop, updating a connection in place. Each
 method is held to its function in `Session` or `Tracker`; the network is an object that plays a
 fixed script of outcomes and keeps the requests it was given.
 */
module Connection {
  import Answers
  import opened CText
  import opened Tracker
  import opened Json
  import JsonParser
  import L = Login
  import opened Login
  import RequestText
  import S = Session
  import opened Session
  import SessionProofs

  /** One HTTP call after another: what comes back is scripted, what was sent is kept. */
  class Network {
    const outcomes: nat -> Outcome
    /** Where the engine ran each request; no method looks at it. */
    ghost const ran: nat -> Option<string>
    var sent: seq<string>

    ghost function Script(): Script {
      (n: nat) => Moment(ReadReply(outcomes(n)), ran(n))
    }

    constructor (outcomes: nat -> Outcome, ghost ran: nat -> Option<string>)
      ensures this.outcomes == outcomes && this.ran == ran && sent == []
    {
      this.outcomes := outcomes;
      this.ran := ran;
      sent := [];
    }

    /** fl_http_post: the body goes out up to its first NUL. */
    method HttpPost(body: string) returns (o: Outcome)
      modifies this
      ensures o == outcomes(|old(sent)|) && sent == old(sent) + [CStr(body)]
    {
      o := outcomes(|sent|);
      sent := sent + [CStr(body)];
    }
  }

  /** The error code and message of a statement or of the connection. */
  class Slot {
    var failure: Failure

    constructor ()
      ensures failure == Clean
    {
      failure := Clean;
    }

    /** pdo_frostlake_error. */
    method Record(state: SqlState, why: Reason)
      modifies this
      ensures failure == Failure(state, why)
    {
      failure := Failure(state, why);
    }

    /** clear_failure. */
    method Clear()
      modifies this
      ensures failure == Clean
    {
      failure := Clean;
    }
  }

  function Texts(trace: seq<Exchange>): (r: seq<string>)
    ensures |r| == |trace|
  {
    seq(|trace|, i requires 0 <= i < |trace| => RequestText.Text(trace[i].request))
  }

  lemma TextsConcat(xs: seq<Exchange>, ys: seq<Exchange>)
    ensures Texts(xs + ys) == Texts(xs) + Texts(ys)
  {}

  /** A session id the driver reads is a C string. */
  lemma IdsAreCStrings(o: Outcome)
    ensures var r := ReadReply(o); r.Reply? && r.sessionId.Some? ==> NulFree(r.sessionId.value)
  {}

  /** How post reads what the HTTP call came back with. */
  method ReadAnswer(o: Outcome) returns (reply: Reply)
    ensures reply == ReadReply(o)
  {
    hide Parse, Get, CStr;
    if o.NoAnswer? {
      return Silent(o.timedOut);
    }
    var tree := JsonParser.FlJsonParse(CStr(o.body));
    if tree.None? || !tree.value.Object? {
      return Garbled(o.status);
    }
    var response := tree.value;
    var success := JsonParser.FlJsonGetBool(response, "success", false);
    var errorMessage := JsonParser.FlJsonGetString(response, "errorMessage");
    if errorMessage.None? {
      errorMessage := JsonParser.FlJsonGetString(response, "error");
    }
    var sessionId := JsonParser.FlJsonGetString(response, "sessionId");
    var started := JsonParser.FlJsonGet(response, "newSession");
    return Reply(o.status, success, sessionId,
                 if started.Some? && started.value.Bool? then Some(started.value.value) else None,
                 errorMessage, response);
  }

  /** pdo_frostlake_db_handle, while the connection is open. */
  class Connection {
    var sessionId: Option<string>
    var tracksSessions: int
    var dirty: bool
    var inTransaction: bool
    var scope: seq<ScopeEntry>
    var scopePending: bool
    const openedAutoCommit: bool
    const net: Network

    ghost function View(): Handle
      reads this
    {
      Handle(sessionId, tracksSessions, Flags(dirty, inTransaction), scope, scopePending, openedAutoCommit)
    }

    ghost predicate Valid()
      reads this
    {
      sessionId.Some? ==> NulFree(sessionId.value)
    }

    /** The start of pdo_frostlake_handle_factory: zeroed fields, nothing known of the engine. */
    constructor (autoCommit: bool, net: Network)
      ensures Valid() && this.net == net
      ensures View() == Handle(None, -1, NOTHING_HELD, [], false, autoCommit)
    {
      sessionId := None;
      tracksSessions := -1;
      dirty := false;
      inTransaction := false;
      scope := [];
      scopePending := false;
      openedAutoCommit := autoCommit;
      this.net := net;
    }

    /** One statement of pdo_frostlake_track_session. */
    method TrackStatement(statement: string)
      modifies this`dirty, this`inTransaction
      ensures Flags(dirty, inTransaction)
           == StatementEffect(old(Flags(dirty, inTransaction)), openedAutoCommit, statement)
    {
      hide Kept, Words, TouchesSession, OpensTransaction, EndsTransaction;
      var words := LeadingWords(statement);
      var touches := ReadTouchesSession(words);
      if touches {
        dirty := true;
      }
      var effect := TransactionEffect(words);
      if effect < 0 {
        inTransaction := false;
      } else if effect > 0 || (!openedAutoCommit && |words| > 0) {
        inTransaction := true;
      }
    }

    /** pdo_frostlake_track_session: the walk to each top-level semicolon and to the end. */
    method TrackSession(sql: string)
      modifies this`dirty, this`inTransaction
      ensures Flags(dirty, inTransaction) == Track(old(Flags(dirty, inTransaction)), openedAutoCommit, sql)
    {
      hide StatementEnd, Scanner.Skip, Fold, Statements, StatementEffect;
      ghost var all := Track(Flags(dirty, inTransaction), openedAutoCommit, sql);
      var end := |sql|;
      var statement, c := 0, 0;
      while true
        invariant statement <= c <= end
        invariant StatementEnd(sql, c) == StatementEnd(sql, statement)
        invariant Fold(Flags(dirty, inTransaction), openedAutoCommit, Statements(sql, statement)) == all
        decreases end - c
      {
        if c < end {
          EndStep(sql, c);
          var past := Scanner.SkipNonPlaceholder(sql, c);
          if past != c {
            c := past;
            continue;
          }
          if sql[c] != ';' {
            c := c + 1;
            continue;
          }
        }
        EndHere(sql, c);
        ghost var before := Flags(dirty, inTransaction);
        TrackStatement(sql[statement..c]);
        StatementTracked(before, Flags(dirty, inTransaction), openedAutoCommit, sql, statement, c);
        if c >= end {
          break;
        }
        c := c + 1;
        statement := c;
      }
    }

    /** forget_session. */
    method ForgetSession()
      modifies this
      ensures View() == Forget(old(View())) && Valid()
    {
      sessionId := None;
      dirty := false;
      inTransaction := false;
      scopePending := true;
    }

    /** absorb. */
    method AbsorbReply(id: Option<string>, started: Option<bool>, sentId: bool)
      requires Valid() && (id.Some? ==> NulFree(id.value))
      modifies this
      ensures View() == Absorb(old(View()), id, started, sentId) && Valid()
    {
      if id.None? {
        return;
      }
      if started.Some? {
        tracksSessions := 1;
        if sentId && started.value {
          ForgetSession();
        }
      } else if tracksSessions < 0 {
        tracksSessions := 0;
      }
      if sessionId == id {
        return;
      }
      sessionId := id;
    }

    /** post: the end of one request, with what it recorded in the slot. */
    method Post(slot: Slot, sql: string, count: int) returns (end: PostEnd)
      requires Valid()
      modifies this, slot, net
      ensures Valid()
      ensures var m := net.Script()(|old(net.sent)|);
              && PostAt(old(View()), old(slot.failure), m) == Posted(View(), slot.failure, end)
              && net.sent == old(net.sent) + [RequestText.Text(RequestFor(old(View()), sql, count))]
    {
      hide Absorb, Track, RequestText.Text, ReadReply, CStr, NulFree;
      var sentId := sessionId.Some?;
      var requireSession := sentId && tracksSessions == 1;
      var q := Request(sql, sessionId, requireSession, if count >= 0 then Some(count) else None, openedAutoCommit);
      var text := RequestText.BuildRequest(q);
      RequestText.TextIsOneCString(q);
      var outcome := net.HttpPost(text);
      IdsAreCStrings(outcome);
      var reply := ReadAnswer(outcome);
      match reply {
        case Silent(timedOut) =>
          if timedOut {
            slot.Record(HYT00, TimedOut);
          } else {
            slot.Record(S08S01, Unreachable);
          }
          return Failed;
        case Garbled(status) =>
          slot.Record(S08S01, Unreadable(status));
          return Failed;
        case Reply(status, success, id, started, message, tree) =>
          if !success {
            if status == 404 && requireSession && id.None? {
              return Gone;
            }
            AbsorbReply(id, started, sentId);
            slot.Record(if status == 200 || status == 400 then HY000 else S08S01,
                        Refused(if message.Some? then message.value else "The statement failed"));
            return Failed;
          }
          AbsorbReply(id, started, sentId);
          return Answer(tree);
      }
    }

    /** apply_scope: a pass over the scope that a loss restarts, once. */
    method ApplyScope(slot: Slot) returns (applied: bool)
      requires Valid()
      modifies this, slot, net
      ensures Valid()
      ensures var r := ApplyWholeScope(old(View()), old(slot.failure), net.Script(), |old(net.sent)|);
              && View() == r.handle && slot.failure == r.failure && applied == r.result
              && net.sent == old(net.sent) + Texts(r.trace)
    {
      hide S.Post, S.ApplyScope, Track, RequestText.Text, ReadReply, Texts;
      ghost var script, n := net.Script(), |net.sent|;
      ghost var whole := ApplyWholeScope(View(), slot.failure, script, n);
      ghost var trace: seq<Exchange> := [];
      var i, restarted := 0, false;
      NothingBefore(whole);
      NothingSent();
      while i < |scope|
        invariant Valid() && 0 <= i <= |scope|
        invariant net.sent == old(net.sent) + Texts(trace)
        invariant whole == S.ApplyScope(View(), slot.failure, script, n + |trace|, i, restarted).After(trace)
        decreases if restarted then 0 else 1, |scope| - i
      {
        ghost var h, f, m := View(), slot.failure, script(n + |trace|);
        ghost var x := Exchanged(h, Scope(i), scope[i].sql, COUNT_UNSET, m);
        var entry := scope[i];
        var end := Post(slot, entry.sql, COUNT_UNSET);
        SessionProofs.PostScope(h, f, m.reply);
        OneText(x);
        TextsConcat(trace, [x]);
        OneMoreExchange(h, f, script, n + |trace|, i, restarted, trace, x);
        trace := trace + [x];
        if end.Gone? {
          ForgetSession();
          if restarted {
            slot.Record(S08003, FreshSessionRefused);
            return false;
          }
          restarted := true;
          i := -1;
        } else if end.Failed? {
          if entry.required || slot.failure.state != HY000 {
            return false;
          }
          slot.Clear();
        }
        i := i + 1;
      }
      PassEnds(View(), slot.failure, script, n + |trace|, restarted, trace);
      scopePending := false;
      return true;
    }

    /** session_lost: whether the statement may be sent once more. */
    method SessionLost(slot: Slot) returns (again: bool)
      modifies this, slot
      ensures Valid() && S.SessionLost(old(View()), old(slot.failure)) == (View(), slot.failure, again)
    {
      var hadTransaction, hadContext := inTransaction, dirty;
      ForgetSession();
      if hadTransaction {
        slot.Record(S08003, TransactionLost);
        return false;
      }
      if hadContext {
        slot.Record(S08003, ContextLost);
        return false;
      }
      return true;
    }

    /** The second and last post of pdo_frostlake_execute, on the session that replaced the lost one. */
    method SendAgain(slot: Slot, sql: string, count: int) returns (response: Option<Json>)
      requires Valid()
      modifies this, slot, net
      ensures Valid()
      ensures var r := S.SendAgain(old(View()), old(slot.failure), net.Script(), |old(net.sent)|, sql, count);
              && View() == r.handle && slot.failure == r.failure && response == r.result
              && net.sent == old(net.sent) + Texts(r.trace)
    {
      hide S.Post, Track, RequestText.Text, ReadReply, Texts;
      OneText(Exchanged(View(), Statement, sql, count, net.Script()(|net.sent|)));
      var end := Post(slot, sql, count);
      match end {
        case Gone =>
          ForgetSession();
          slot.Record(S08003, FreshSessionRefused);
          return None;
        case Failed => return None;
        case Answer(tree) =>
          TrackSession(sql);
          return Some(tree);
      }
    }

    /** pdo_frostlake_execute past its first apply_scope. */
    method Send(slot: Slot, sql: string, count: int) returns (response: Option<Json>)
      requires Valid()
      modifies this, slot, net
      ensures Valid()
      ensures var r := SendStatement(old(View()), old(slot.failure), net.Script(), |old(net.sent)|, sql, count);
              && View() == r.handle && slot.failure == r.failure && response == r.result
              && net.sent == old(net.sent) + Texts(r.trace)
    {
      hide S.Post, S.ApplyScope, S.SendAgain, S.SessionLost, Track, RequestText.Text, ReadReply, Texts;
      ghost var script, n := net.Script(), |net.sent|;
      ghost var x := Exchanged(View(), Statement, sql, count, script(n));
      OneText(x);
      var end := Post(slot, sql, count);
      match end {
        case Failed => return None;
        case Answer(tree) =>
          TrackSession(sql);
          return Some(tree);
        case Gone =>
          var again := SessionLost(slot);
          if !again {
            return None;
          }
          ghost var pass := ApplyWholeScope(View(), slot.failure, script, n + 1);
          TextsConcat([x], pass.trace);
          var applied := ApplyScope(slot);
          if !applied {
            return None;
          }
          ghost var last := S.SendAgain(View(), slot.failure, script, n + 1 + |pass.trace|, sql, count);
          TextsConcat([x] + pass.trace, last.trace);
          response := SendAgain(slot, sql, count);
      }
    }

    /** pdo_frostlake_execute on an open connection. */
    method Execute(slot: Slot, sql: string, count: int) returns (response: Option<Json>)
      requires Valid()
      modifies this, slot, net
      ensures Valid()
      ensures var r := S.Execute(old(View()), old(slot.failure), net.Script(), |old(net.sent)|, sql, count);
              && View() == r.handle && slot.failure == r.failure && response == r.result
              && net.sent == old(net.sent) + Texts(r.trace)
      ensures response.Some? ==>
                |net.sent| > |old(net.sent)| && Answers.SaysSuccess(net.outcomes(|net.sent| - 1), response.value)
    {
      hide S.Post, S.ApplyScope, SendStatement, Track, RequestText.Text, ReadReply, Texts, Answers.SaysSuccess;
      ghost var script, n := net.Script(), |net.sent|;
      Answers.AnswerIsSaid(net.outcomes, View(), slot.failure, script, n, sql, count);
      ghost var sent: seq<Exchange> := [];
      if scopePending {
        sent := ApplyWholeScope(View(), slot.failure, script, n).trace;
        var applied := ApplyScope(slot);
        if !applied {
          return None;
        }
      } else {
        NothingSent();
      }
      ghost var last := SendStatement(View(), slot.failure, script, n + |sent|, sql, count);
      TextsConcat(sent, last.trace);
      assert [] + last.trace == last.trace;
      response := Send(slot, sql, count);
    }

    /** use_object: false when the connection has to be refused. */
    method UseObject(slot: Slot, u: Use) returns (ok: bool)
      requires Valid()
      modifies this, slot, net
      ensures Valid()
      ensures var r := L.UseObject(old(View()), old(slot.failure), net.Script(), |old(net.sent)|, u);
              && View() == r.handle && slot.failure == r.failure && ok == r.result
              && net.sent == old(net.sent) + Texts(r.trace)
    {
      hide S.Execute, Texts, IsIdentifier, UseSql;
      NothingSent();
      if u.name.None? || u.name.value == "" {
        return true;
      }
      var identifier := CheckIdentifier(u.name.value);
      if !identifier {
        if !u.required {
          return true;
        }
        slot.Record(S08001, NotAnIdentifier(u.kind, u.name.value));
        return false;
      }
      var sql := UseSql(u.kind, u.name.value);
      scope := scope + [ScopeEntry(sql, u.required)];
      var response := Execute(slot, sql, COUNT_UNSET);
      if response.Some? {
        return true;
      }
      if slot.failure.Failure? && slot.failure.state == HY000 && !u.required {
        slot.Clear();
        return true;
      }
      return false;
    }

    /** The factory's chain of use_object calls, which stops at the first that refuses. */
    method UseObjects(slot: Slot, uses: seq<Use>) returns (ok: bool)
      requires Valid()
      modifies this, slot, net
      ensures Valid()
      ensures var r := UseAll(old(View()), old(slot.failure), net.Script(), |old(net.sent)|, uses);
              && View() == r.handle && slot.failure == r.failure && ok == r.result
              && net.sent == old(net.sent) + Texts(r.trace)
      decreases |uses|
    {
      hide L.UseObject, Texts;
      if |uses| == 0 {
        NothingSent();
        return true;
      }
      ghost var first := L.UseObject(View(), slot.failure, net.Script(), |net.sent|, uses[0]);
      ghost var n := |net.sent| + |first.trace|;
      ok := UseObject(slot, uses[0]);
      if ok {
        TextsConcat(first.trace, UseAll(View(), slot.failure, net.Script(), n, uses[1..]).trace);
        ok := UseObjects(slot, uses[1..]);
      }
    }

    /** pdo_frostlake_session_alive; the health check's answer is a parameter. */
    method SessionAlive(slot: Slot, healthy: bool) returns (alive: bool)
      requires Valid()
      modifies this, slot, net
      ensures Valid()
      ensures var r := S.SessionAlive(old(View()), old(slot.failure), net.Script(), |old(net.sent)|, healthy);
              && View() == r.handle && slot.failure == r.failure && alive == r.result
              && net.sent == old(net.sent) + Texts(r.trace)
    {
      hide S.Post, S.Execute, Track, RequestText.Text, ReadReply, Texts;
      if sessionId.None? && !scopePending {
        NothingSent();
        if !healthy {
          slot.Record(S08001, Unhealthy);
        }
        return healthy;
      }
      if !dirty && !inTransaction {
        var response := Execute(slot, PROBE, COUNT_UNSET);
        return response.Some?;
      }
      OneText(Exchanged(View(), Probe, PROBE, COUNT_UNSET, net.Script()(|net.sent|)));
      var end := Post(slot, PROBE, COUNT_UNSET);
      return end.Answer?;
    }
  }

  /** pdo_frostlake_execute, which a closed connection may still be asked for. */
  method ExecuteOn(c: Connection?, slot: Slot, sql: string, count: int) returns (response: Option<Json>)
    requires c != null ==> c.Valid()
    modifies slot, if c != null then {c, c.net} else {}
    ensures c == null ==> response == None && slot.failure == Failure(S08003, Closed)
    ensures c != null ==>
              && c.Valid()
              && var r := S.Execute(old(c.View()), old(slot.failure), c.net.Script(), |old(c.net.sent)|, sql, count);
                 && c.View() == r.handle && slot.failure == r.failure && response == r.result
                 && c.net.sent == old(c.net.sent) + Texts(r.trace)
                 && (response.Some? ==>
                       && |c.net.sent| > |old(c.net.sent)|
                       && Answers.SaysSuccess(c.net.outcomes(|c.net.sent| - 1), response.value))
  {
    hide S.Execute, Texts, Answers.SaysSuccess;
    if c == null {
      slot.Record(S08003, Closed);
      return None;
    }
    response := c.Execute(slot, sql, count);
  }

  /** pdo_frostlake_handle_factory once the port is read; a refused connection is not kept. */
  method HandleFactory(autoCommit: bool, net: Network, slot: Slot, healthy: bool, source: DataSource)
    returns (c: Connection?)
    requires slot.failure.Clean?
    modifies net, slot
    ensures var r := Connect(autoCommit, net.Script(), |old(net.sent)|, healthy, source);
            && (c != null <==> r.result) && slot.failure == r.failure
            && net.sent == old(net.sent) + Texts(r.trace)
            && (c != null ==> fresh(c) && c.Valid() && c.net == net && c.View() == r.handle)
  {
    hide UseAll, Texts;
    var h := new Connection(autoCommit, net);
    if !healthy {
      NothingSent();
      slot.Record(S08001, Unhealthy);
      return null;
    }
    var selected := h.UseObjects(slot, Uses(source));
    if !selected {
      return null;
    }
    h.dirty := false;
    h.inTransaction := false;
    return h;
  }

  lemma OneText(x: Exchange)
    ensures Texts([x]) == [RequestText.Text(x.request)]
  {}

  lemma NothingSent()
    ensures Texts([]) == []
  {}

  /** No stretch before. */
  lemma NothingBefore<T>(r: Run<T>)
    ensures r == r.After([])
  {
    assert [] + r.trace == r.trace;
  }

  lemma PassEnds(h: Handle, f: Failure, script: Script, n: nat, restarted: bool, trace: seq<Exchange>)
    ensures S.ApplyScope(h, f, script, n, |h.scope|, restarted).After(trace)
         == Run(h.(scopePending := false), f, trace, true)
  {
    assert trace + [] == trace;
  }

  /** One exchange of the pass moves from what is still to be sent to what was. */
  lemma OneMoreExchange(h: Handle, f: Failure, script: Script, n: nat, i: nat, restarted: bool,
                        trace: seq<Exchange>, x: Exchange)
    requires i < |h.scope| && x == Exchanged(h, Scope(i), h.scope[i].sql, COUNT_UNSET, script(n))
    ensures var p := PostAt(h, f, script(n));
            var r := S.ApplyScope(h, f, script, n, i, restarted).After(trace);
            var now := trace + [x];
            match p.end
            case Gone =>
              if restarted then r == Run(Forget(p.handle), Failure(S08003, FreshSessionRefused), now, false)
              else r == S.ApplyScope(Forget(p.handle), p.failure, script, n + 1, 0, true).After(now)
            case Failed =>
              if !h.scope[i].required && p.failure.state == HY000 then
                r == S.ApplyScope(p.handle, Clean, script, n + 1, i + 1, restarted).After(now)
              else r == Run(p.handle, p.failure, now, false)
            case Answer(_) => r == S.ApplyScope(p.handle, p.failure, script, n + 1, i + 1, restarted).After(now)
  {
    hide S.Post;
    SessionProofs.PostScope(h, f, script(n).reply);
    var rest := S.ApplyScope(h, f, script, n, i, restarted).trace[1..];
    assert S.ApplyScope(h, f, script, n, i, restarted).trace == [x] + rest;
    assert trace + ([x] + rest) == (trace + [x]) + rest;
  }

  lemma EndStep(sql: string, c: nat)
    requires c < |sql|
    ensures Scanner.Skip(sql, c) != c ==> StatementEnd(sql, Scanner.Skip(sql, c)) == StatementEnd(sql, c)
    ensures Scanner.Skip(sql, c) == c && sql[c] != ';' ==> StatementEnd(sql, c + 1) == StatementEnd(sql, c)
    ensures Scanner.Skip(sql, c) == c && sql[c] == ';' ==> StatementEnd(sql, c) == c
  {}

  lemma EndHere(sql: string, c: nat)
    requires c <= |sql|
    ensures c == |sql| ==> StatementEnd(sql, c) == c
  {}

  lemma StatementTracked(before: Flags, after: Flags, autoCommit: bool, sql: string, statement: nat, c: nat)
    requires statement <= c <= |sql| && c == StatementEnd(sql, statement)
    requires after == StatementEffect(before, autoCommit, sql[statement..c])
    ensures Fold(before, autoCommit, Statements(sql, statement))
         == if c == |sql| then after else Fold(after, autoCommit, Statements(sql, c + 1))
  {
    hide StatementEffect, StatementEnd;
    var first := sql[statement..c];
    if c < |sql| {
      assert Statements(sql, statement)[1..] == Statements(sql, c + 1);
    } else {
      assert Statements(sql, statement)[1..] == [];
    }
  }
}
