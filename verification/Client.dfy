/**
 A program that opens a connection and uses it, one call after another. It ties the whole-run
 theorems to the class: the requests on the wire are those of the run the theorems are about.
 */
module Client {
  import opened Session
  import SessionProofs
  import Engine
  import ContextSafety
  import ScopeSafety
  import opened Login
  import LoginSafety
  import opened Connection

  /** What a caller learns of its call. */
  datatype Result = Result(success: bool, failure: Failure)

  function Results(records: seq<Record>): (r: seq<Result>)
    ensures |r| == |records|
    ensures forall i :: 0 <= i < |records| ==> r[i] == Result(records[i].success, records[i].failure)
  {
    seq(|records|, i requires 0 <= i < |records| => Result(records[i].success, records[i].failure))
  }

  /** One statement or one liveness check, on a clean failure slot. */
  method MakeCall(c: Connection, call: Call) returns (result: Result)
    requires c.Valid()
    modifies c, c.net
    ensures c.Valid()
    ensures var r := RunCall(old(c.View()), c.net.Script(), |old(c.net.sent)|, call);
            && c.View() == r.handle && result == Result(r.record.success, r.record.failure)
            && c.net.sent == old(c.net.sent) + Texts(r.record.trace)
  {
    hide Execute, SessionAlive, Texts;
    var slot := new Slot();
    match call {
      case Ask(sql, count) =>
        var response := c.Execute(slot, sql, count);
        return Result(response.Some?, slot.failure);
      case Check(healthy) =>
        var alive := c.SessionAlive(slot, healthy);
        return Result(alive, slot.failure);
    }
  }

  /** One call after another. */
  method MakeCalls(c: Connection, calls: seq<Call>) returns (results: seq<Result>)
    requires c.Valid()
    modifies c, c.net
    ensures c.Valid()
    ensures var records := RunCalls(old(c.View()), c.net.Script(), |old(c.net.sent)|, calls);
            && results == Results(records) && c.net.sent == old(c.net.sent) + Texts(Sent(records))
            && c.View() == SessionProofs.HandleAfter(old(c.View()), c.net.Script(), |old(c.net.sent)|, calls)
    decreases |calls|
  {
    hide RunCall, Texts;
    if |calls| == 0 {
      NothingSent();
      return [];
    }
    ghost var script, n := c.net.Script(), |c.net.sent|;
    ghost var first := RunCall(c.View(), script, n, calls[0]);
    ghost var rest := RunCalls(first.handle, script, n + |first.record.trace|, calls[1..]);
    var result := MakeCall(c, calls[0]);
    var others := MakeCalls(c, calls[1..]);
    SentFirst(first.record, rest);
    TextsConcat(first.record.trace, Sent(rest));
    return [result] + others;
  }

  lemma SentFirst(record: Record, rest: seq<Record>)
    ensures Sent([record] + rest) == record.trace + Sent(rest)
    ensures Results([record] + rest) == [Result(record.success, record.failure)] + Results(rest)
  {
    assert ([record] + rest)[1..] == rest;
  }

  /**
   A whole program. If the engine honoured its contract in what it did with these very requests, then
   nothing ran off the session holding what an acknowledged statement left, and every session started
   after the login had the data source's scope put on before its first statement.
   */
  method UseConnection(autoCommit: bool, net: Network, healthy: bool, source: DataSource, calls: seq<Call>)
    returns (c: Connection?, results: seq<Result>)
    modifies net
    ensures var script, n := net.Script(), |old(net.sent)|;
            var login := Connect(autoCommit, script, n, healthy, source);
            var records := RunCalls(login.handle, script, n + |login.trace|, calls);
            && (c != null <==> login.result)
            && (c == null ==> results == [] && net.sent == old(net.sent) + Texts(login.trace))
            && (c != null ==>
                  && results == Results(records)
                  && net.sent == old(net.sent) + Texts(login.trace + Sent(records))
                  && forall used :: Engine.Honest(used, login.trace + Sent(records)) ==>
                       && ContextSafety.SafeRun(ContextSafety.NO_HOLD, records, autoCommit)
                       && forall id :: id !in Engine.HandedAfter(used, login.trace) ==>
                            ScopeSafety.StartsOnScope(ScopeSafety.History(Sent(records), id), Entries(Uses(source))))
  {
    hide Connect, RunCalls, Texts, Uses, Entries;
    ghost var script, n := net.Script(), |net.sent|;
    ghost var login := Connect(autoCommit, script, n, healthy, source);
    ghost var records := RunCalls(login.handle, script, n + |login.trace|, calls);
    var slot := new Slot();
    c := HandleFactory(autoCommit, net, slot, healthy, source);
    if c == null {
      return null, [];
    }
    results := MakeCalls(c, calls);
    TextsConcat(login.trace, Sent(records));
    forall used | Engine.Honest(used, login.trace + Sent(records))
      ensures ContextSafety.SafeRun(ContextSafety.NO_HOLD, records, autoCommit)
      ensures forall id :: id !in Engine.HandedAfter(used, login.trace) ==>
                ScopeSafety.StartsOnScope(ScopeSafety.History(Sent(records), id), Entries(Uses(source)))
    {
      LoginSafety.ConnectionIsSafe(autoCommit, used, script, n, healthy, source, calls);
    }
  }
}
