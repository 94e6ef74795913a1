/**
 The engine's contract, and what its clients may conclude from one answer. An adversary chooses
 everything the contract leaves open: any session may die between two requests, any request or
 answer may be lost, any answer may arrive unreadable, and any statement may be refused.
 */
module Engine {
  import opened CText
  import opened Session
  import SessionProofs

  /**
   What an engine that tracks sessions may do with one request, `used` being the ids it has handed
   out so far.
   - A request that requires its session runs in that session or nowhere.
   - Any other request that runs does so in the session it names or in a fresh one, whose id was
     never used before.
   - An answer that is a success, or that names a session, is about a request that ran: it names the
     session it ran in and says whether that session was started for it.
   - A failure that names no session is a server fault, not one of the engine's 200 and 400 answers;
     as a 404 to a request that required its session it means that nothing ran.
   */
  predicate Honours(used: set<string>, q: Request, m: Moment) {
    && (m.ran.Some? ==> q.sessionId == m.ran || (!q.requireSession && m.ran.value !in used))
    && (m.reply.Reply? ==>
        if m.reply.success || m.reply.sessionId.Some? then
          && m.ran.Some? && m.reply.sessionId == m.ran
          && m.reply.started == Some(q.sessionId != m.ran)
        else
          && m.reply.status != 200 && m.reply.status != 400
          && (m.reply.status == 404 && q.requireSession ==> m.ran.None?))
  }

  function Handed(used: set<string>, m: Moment): set<string> {
    if m.ran.Some? then used + {m.ran.value} else used
  }

  function HandedAfter(used: set<string>, trace: seq<Exchange>): set<string>
    decreases |trace|
  {
    if trace == [] then used else HandedAfter(Handed(used, trace[0].moment), trace[1..])
  }

  predicate Honest(used: set<string>, trace: seq<Exchange>)
    decreases |trace|
  {
    trace == [] ||
    (Honours(used, trace[0].request, trace[0].moment) && Honest(Handed(used, trace[0].moment), trace[1..]))
  }

  lemma {:induction false} HonestConcat(used: set<string>, xs: seq<Exchange>, ys: seq<Exchange>)
    ensures Honest(used, xs + ys) <==> Honest(used, xs) && Honest(HandedAfter(used, xs), ys)
    ensures HandedAfter(used, xs + ys) == HandedAfter(HandedAfter(used, xs), ys)
    decreases |xs|
  {
    if xs == [] {
      assert xs + ys == ys;
    } else {
      assert (xs + ys)[1..] == xs[1..] + ys;
      HonestConcat(Handed(used, xs[0].moment), xs[1..], ys);
    }
  }

  /** A trace is its first exchange and the rest. */
  lemma FirstStep(used: set<string>, x: Exchange, rest: seq<Exchange>)
    ensures HandedAfter(used, [x] + rest) == HandedAfter(Handed(used, x.moment), rest)
    ensures Honest(used, [x] + rest) <==> Honours(used, x.request, x.moment) && Honest(Handed(used, x.moment), rest)
  {
    assert ([x] + rest)[1..] == rest;
  }

  // ---------------------------------------------------------------- a handle in step with its engine

  /**
   The connection holds only sessions the engine has named, and requires every one of them; what it
   believes held is held on one, with no scope pending.
   */
  predicate InStep(h: Handle, used: set<string>) {
    && SessionProofs.Consistent(h)
    && (h.sessionId.Some? ==> h.tracks == 1 && h.sessionId.value in used)
    && (h.flags.Any() ==> h.sessionId.Some? && !h.scopePending)
  }

  /** What one honest exchange can do to the handle. */
  lemma HonestPost(h: Handle, f: Failure, used: set<string>, sql: string, count: int, m: Moment)
    requires InStep(h, used) && Honours(used, RequestFor(h, sql, count), m)
    ensures var p := PostAt(h, f, m);
            && InStep(p.handle, Handed(used, m))
            && p.handle == h.(sessionId := p.handle.sessionId, tracks := p.handle.tracks)
            && SessionProofs.Later(h, p.handle)
            && (h.sessionId.Some? ==> p.handle == h && (m.ran.None? || m.ran == h.sessionId))
            && (h.sessionId.None? ==> m.ran.None? || m.ran.value !in used)
            && (p.end.Answer? ==> m.ran.Some? && p.handle.sessionId == m.ran)
            && (p.end.Failed? && p.failure.state == HY000 ==> m.ran.Some? && p.handle.sessionId == m.ran)
            && (p.end.Gone? ==> m.ran.None? && p.handle == h && h.sessionId.Some?)
            && (p.end.Failed? ==> p.failure.Failure? && p.failure.state != S08003)
            && (!p.end.Failed? ==> p.failure == f)
            && (h.sessionId.None? && p.handle.sessionId.Some? ==> p.handle.sessionId == m.ran)
  {}
}
