/**
 `Session` of openssh/agent.go as the goroutine that owns queryMu runs it. Between two of
 its steps any other goroutine may run Close; SessionMachine.OthersOnlyClose shows of the
 state machine that nothing else can happen there.
 */
module Agent {
  import opened Bytes
  import opened Frames
  import opened Transport

  /**
   What the environment has in store for a session: whether its pipe name is local, the
   connection it gets if its dial is accepted, and the number of answers up to which no other
   goroutine closes it. None of it is for the session to decide.
   */
  datatype World = World(local: bool, agent: Option<Script>, left: nat)

  /** The answered requests head what was sent; their replies head what the agent wrote. */
  predicate Paired(requests: seq<bytes>, replies: seq<bytes>, incoming: bytes, sent: bytes) {
    && (forall f :: f in replies ==> ValidResponse(f))
    && Concat(replies) <= incoming
    && Concat(requests) <= sent
  }

  /** Beyond them nothing was exchanged, except a part of the first request that failed. */
  predicate Tail(requests: seq<bytes>, replies: seq<bytes>, tried: bytes, pos: nat, sent: bytes, failed: bool) {
    && sent <= Concat(requests) + tried && |Concat(replies)| <= pos
    && (pos > |Concat(replies)| ==> failed && sent == Concat(requests) + tried)
  }

  lemma AnswerKeepsPairing(requests: seq<bytes>, replies: seq<bytes>, incoming: bytes, sent: bytes, pos: nat,
                           request: bytes, reply: bytes)
    requires Paired(requests, replies, incoming, sent) && Tail(requests, replies, [], pos, sent, false)
    requires pos <= |incoming| && Next(Responses, incoming[pos..]) == Some(reply)
    ensures Paired(requests + [request], replies + [reply], incoming, sent + request)
    ensures Tail(requests + [request], replies + [reply], [], pos + |reply|, sent + request, false)
  {
    ConcatSnoc(requests, request);
    ConcatSnoc(replies, reply);
    PrefixGrows(Concat(replies), reply, incoming);
  }

  lemma FailureKeepsPairing(requests: seq<bytes>, replies: seq<bytes>, incoming: bytes, sent: bytes, pos: nat,
                            request: bytes, sent': bytes, pos': nat)
    requires Paired(requests, replies, incoming, sent) && Tail(requests, replies, [], pos, sent, false)
    requires sent <= sent' <= sent + request && pos <= pos' && (pos' != pos ==> sent' == sent + request)
    ensures Paired(requests, replies, incoming, sent')
    ensures Tail(requests, replies, request, pos', sent', true)
  {
    assert sent == Concat(requests);
  }

  /**
   The environment lets a request through after those answered so far: the agent is there,
   nobody closes the session meanwhile, no call on the connection fails up to the end of the
   request and of its reply, and the agent's output goes on with a valid frame.
   */
  ghost predicate Favours(world: World, requests: seq<bytes>, replies: seq<bytes>, request: bytes) {
    && world.local && world.agent.Some? && |replies| < world.left
    && WritesCalmly(world.agent.value, |Concat(requests)| + |request|)
    && |replies| < |Split(Responses, world.agent.value.incoming)|
  }

  /**
   Everything is as it should be for one more request: the framing of 1 to 16379 bytes, a
   local agent that nobody disturbs and no call on it fails, and whose output goes on with
   the framing of p, a reply of 1 to 262144 bytes that is not a long failure.
   */
  ghost predicate Genuine(world: World, requests: seq<bytes>, replies: seq<bytes>, request: bytes, p: bytes) {
    && 5 <= |request| <= 16383 && request[..4] == EncodeU32(|request| - 4)
    && 1 <= |p| <= 262144 && (p[0] == 5 ==> |p| == 1)
    && world.local && world.agent.Some? && |replies| < world.left
    && (forall f :: f in world.agent.value.faults ==> f.written > |Concat(requests)| + |request|)
    && Concat(replies) + Frame(p) <= world.agent.value.incoming
  }

  lemma GenuineIsFavoured(world: World, requests: seq<bytes>, replies: seq<bytes>, request: bytes, p: bytes)
    requires Genuine(world, requests, replies, request, p)
    requires forall f :: f in replies ==> ValidResponse(f)
    ensures ValidRequest(request) && ValidResponse(Frame(p)) && Favours(world, requests, replies, request)
  {
    var incoming := world.agent.value.incoming;
    RequestExact(request);
    FramedExact(p);
    ConcatSnoc(replies, Frame(p));
    FramesAtHead(Responses, replies + [Frame(p)], incoming);
  }

  /** Bytes sent and bytes read on the connection ever dialled. */
  datatype Line = Line(sent: bytes, pos: nat)

  /** A session between two calls, as values. */
  datatype View = View(closed: bool, connected: bool, dials: nat, line: Option<Line>,
                       requests: seq<bytes>, replies: seq<bytes>, failed: bool, lastTried: bytes)

  const NEW := View(false, false, 0, None, [], [], false, [])

  /** What always holds of it. */
  predicate Sound(world: World, v: View) {
    && v.dials <= 1 && (v.line.Some? ==> v.dials == 1 && world.agent.Some?)
    && (v.connected ==> v.line.Some? && !v.closed)
    && (v.dials == 1 && !v.closed ==> v.connected)
    && |v.requests| == |v.replies| && (v.line.None? ==> v.requests == [])
    && (v.failed ==> v.closed || !world.local)
    && (v.line.Some? ==>
          var (line, incoming) := (v.line.value, world.agent.value.incoming);
          && line.pos <= |incoming| && Paired(v.requests, v.replies, incoming, line.sent)
          && Tail(v.requests, v.replies, if v.failed then v.lastTried else [], line.pos, line.sent, v.failed))
  }

  function Missed(v: View, request: bytes): View {
    v.(failed := true, lastTried := if v.failed then v.lastTried else request)
  }

  /** What a query can make of it. */
  ghost predicate Queried(world: World, v: View, request: bytes, reply: bytes, err: bool, v': View) {
    && Sound(world, v')
    && (!v.closed && !v.failed && ValidRequest(request) && Favours(world, v.requests, v.replies, request) ==> !err)
    && if !ValidRequest(request) then err && v' == v
       else if !world.local || v.closed then err && v' == Missed(v, request)
       else if err then
         && v' == Missed(v, request).(closed := true, connected := false, dials := v'.dials, line := v'.line)
         && v.dials <= v'.dials && (v.line.Some? ==> v'.line.Some?)
       else
         && v'.requests == v.requests + [request] && v'.replies == v.replies + [reply]
         && !v.failed && !v'.failed && !v'.closed && v'.line.Some? && v'.lastTried == v.lastTried
  }

  /** What a query of an undisturbed session gives back is then exactly that reply. */
  lemma GenuineIsAnswered(world: World, v: View, request: bytes, p: bytes, reply: bytes, err: bool, v': View)
    requires Sound(world, v) && !v.closed && Genuine(world, v.requests, v.replies, request, p)
    requires Queried(world, v, request, reply, err, v')
    ensures !err && reply == Frame(p)
    ensures v'.line.Some? && v'.line.value.sent == Concat(v.requests) + request
  {
    var incoming := world.agent.value.incoming;
    assert forall f :: f in v.replies ==> ValidResponse(f);
    GenuineIsFavoured(world, v.requests, v.replies, request, p);
    ConcatSnoc(v.requests, request);
    FramesAtHead(Responses, v'.replies, incoming);
    ConcatSnoc(v.replies, Frame(p));
    FramesAtHead(Responses, v.replies + [Frame(p)], incoming);
    assert Split(Responses, incoming)[|v.replies|] == v'.replies[|v.replies|] == (v.replies + [Frame(p)])[|v.replies|];
  }

  class Session {
    const world: World
    var conn: Conn?
    var closed: bool
    var answered: nat                    // how many requests have been answered

    ghost var link: Conn?                // the connection ever dialled
    ghost var dials: nat
    ghost var requests: seq<bytes>       // answered, in order
    ghost var replies: seq<bytes>        // their replies
    ghost var failed: bool               // some valid request was not answered
    ghost var lastTried: bytes           // the first such request

    ghost predicate Valid()
      reads this, link
    {
      && dials <= 1 && (link != null ==> dials == 1)
      && (conn != null ==> conn == link && !closed)
      && |requests| == |replies| == answered
      && (link == null ==> requests == [])
      && (link != null ==> world.agent == Some(link.script) && link.Valid() && (!closed ==> link.open))
      && (link != null ==> Paired(requests, replies, link.script.incoming, link.sent))
      && (link != null ==>
            Tail(requests, replies, if failed then lastTried else [], link.pos, link.sent, failed))
    }

    ghost function Look(): View
      reads this, link
    {
      View(closed, conn != null, dials, if link == null then None else Some(Line(link.sent, link.pos)),
           requests, replies, failed, lastTried)
    }

    lemma LookIsSound()
      requires Valid() && Settled()
      ensures Sound(world, Look())
    {
    }

    ghost function Upstream(): set<Conn>
      reads this
    {
      if link == null then {} else {link}
    }

    /** Between queries a dialled session has its connection or is closed, and a failure retires it. */
    ghost predicate Settled()
      reads this
    {
      (dials == 1 && !closed ==> conn != null) && (failed ==> closed || !world.local)
    }

    /** From here on other goroutines may close the session. */
    predicate MayBeClosed()
      reads this
    {
      answered >= world.left
    }

    constructor (world: World)
      ensures Valid() && Settled() && this.world == world && !closed && !failed
      ensures link == null && Look() == NEW
    {
      this.world := world;
      conn, closed, answered, link, dials := null, false, 0, null, 0;
      requests, replies, failed, lastTried := [], [], false, [];
    }

    /** agent.go:113-128 */
    method Close()
      requires Valid()
      modifies this`conn, this`closed, Upstream()`open
      ensures Valid() && Settled() && Look() == old(Look()).(closed := true, connected := false)
      ensures old(conn) != null ==> !old(conn).open
      ensures link != null && !old(link.open) ==> !link.open
    {
      if closed {
        return;
      }
      closed := true;
      var c := conn;
      conn := null;
      if c != null {
        c.Close();
      }
    }

    /** What other goroutines may do between two steps of a query: nothing, or Close. */
    method Interference()
      requires Valid()
      modifies this`conn, this`closed, Upstream()`open
      ensures Valid() && (old(closed) ==> closed) && (old(Settled()) ==> Settled())
      ensures conn == old(conn) || (conn == null && closed)
      ensures closed && !old(closed) ==> MayBeClosed() && (old(conn) != null ==> !old(conn).open)
      ensures !MayBeClosed() && link != null ==> link.open == old(link.open)
      ensures link != null && !old(link.open) ==> !link.open
    {
      var closes: bool := *;
      if closes && MayBeClosed() {
        Close();
      }
    }

    /** A query that is not answered. */
    ghost method Fail(request: bytes)
      requires Valid()
      modifies this`failed, this`lastTried
      ensures Valid() && failed && lastTried == if old(failed) then old(lastTried) else request
    {
      lastTried := if failed then lastTried else request;
      failed := true;
    }

    /** winio.DialPipeContext: once in the life of a session; only a Close cuts it short. */
    method Dial() returns (c: Conn?)
      requires Valid() && dials == 0
      modifies this`link, this`dials
      ensures Valid() && dials == 1 && link == c
      ensures c != null ==> fresh(c) && c.open && c.pos == 0 && c.sent == []
      ensures c == null ==> world.agent.None? || MayBeClosed()
    {
      dials := dials + 1;
      var cancelled: bool := *;
      if world.agent.None? || (cancelled && MayBeClosed()) {
        return null;
      }
      c := new Conn(world.agent.value);
      link := c;
    }

    /**
     agent.go:80-104: the session's connection, dialled on first use; null when the session
     is closed, also when it is closed during the dial.
     */
    method Connection(request: bytes) returns (c: Conn?)
      requires Valid() && Settled() && world.local
      modifies this`conn, this`closed, this`link, this`dials, this`failed, this`lastTried, Upstream()`open
      ensures Valid() && Settled() && (old(closed) ==> closed)
      ensures old(link) != null ==> link == old(link)
      ensures old(link) == null && link != null ==> fresh(link)
      ensures old(closed) ==> c == null && link == old(link) && dials == old(dials)
      ensures c != null ==> c == link && !failed && !old(failed) && lastTried == old(lastTried)
      ensures c != null ==> (closed ==> MayBeClosed()) && (closed <==> !c.open)
      ensures c == null ==> failed && lastTried == if old(failed) then old(lastTried) else request
      ensures c == null && !old(closed) ==> world.agent.None? || MayBeClosed()
    {
      Interference();
      if closed {
        Fail(request);
        return null;
      }
      c := conn;
      Interference();
      if c == null {
        c := Dial();
        if c == null {
          Close();
          Fail(request);
          return null;
        }
        Interference();
        if closed {
          c.Close();
          Fail(request);
          return null;
        }
        conn := c;
      }
      Interference();
      return c;
    }

    /**
     agent.go:71-110. An answer is the next frame of the agent, and it extends the two
     streams by exactly this request and this reply; anything else is the failure frame, and
     a valid request that got it has retired the session for good. A request that the
     environment lets through is answered, and a closed session refuses without any I/O.
     */
    method Query(request: bytes) returns (reply: bytes, err: bool)
      requires Valid() && Settled()
      modifies this, Upstream()
      ensures Valid() && Settled()
      ensures old(link) != null ==> link == old(link)
      ensures old(link) == null && link != null ==> fresh(link)
      ensures (old(closed) ==> closed) && (old(failed) ==> failed && lastTried == old(lastTried))
      ensures !err ==> ValidRequest(request) && !old(failed) && !failed
      ensures !err ==> requests == old(requests) + [request] && replies == old(replies) + [reply]
      ensures err ==> reply == FAILURE_FRAME && requests == old(requests) && replies == old(replies)
      ensures err && ValidRequest(request) ==> failed && (!old(failed) ==> lastTried == request)
      ensures !ValidRequest(request) ==> err && failed == old(failed)
      ensures !ValidRequest(request) || old(closed) ==>
                && err && link == old(link) && dials == old(dials) && closed == old(closed)
                && (link != null ==> link.sent == old(link.sent) && link.pos == old(link.pos))
      ensures (ValidRequest(request) && !old(closed) && !old(failed)
               && Favours(world, old(requests), old(replies), request)) ==> !err
      ensures closed ==> old(closed) || failed || MayBeClosed()
      ensures Queried(world, old(Look()), request, reply, err, Look())
    {
      if !ValidRequest(request) {
        LookIsSound();
        return FAILURE_FRAME, true;
      }
      if !world.local {
        Fail(request);
        LookIsSound();
        return FAILURE_FRAME, true;
      }
      var c := Connection(request);
      if c == null {
        LookIsSound();
        return FAILURE_FRAME, true;
      }
      reply, err := AttemptOrRetire(c, request);
      LookIsSound();
    }

    /** agent.go:105-109: a failed exchange closes the session. */
    method AttemptOrRetire(c: Conn, request: bytes) returns (reply: bytes, err: bool)
      requires Valid() && Settled() && c == link && !failed && ValidRequest(request)
      modifies this, c
      ensures Valid() && Settled() && link == c && failed == err
      ensures (old(closed) ==> closed) && (closed ==> old(closed) || failed)
      ensures !err ==> requests == old(requests) + [request] && replies == old(replies) + [reply]
      ensures err ==> reply == FAILURE_FRAME && requests == old(requests) && replies == old(replies)
      ensures err ==> lastTried == request
      ensures !err ==> lastTried == old(lastTried) && closed == old(closed) && old(c.open)
      ensures old(c.open) && Favours(world, old(requests), old(replies), request) ==> old(MayBeClosed()) || !err
    {
      if |replies| < |Split(Responses, c.script.incoming)| {
        NextBehind(Responses, replies, c.script.incoming);
      }
      reply, err := Attempt(c, request);
      if err {
        Interference();
        Close();
      }
    }

    /** agent.go:105, with the history of the two streams brought up to date. */
    method Attempt(c: Conn, request: bytes) returns (reply: bytes, err: bool)
      requires Valid() && c == link && !failed && ValidRequest(request)
      modifies c, this`answered, this`requests, this`replies, this`failed, this`lastTried
      ensures Valid() && failed == err
      ensures !err ==> requests == old(requests) + [request] && replies == old(replies) + [reply]
      ensures err ==> reply == FAILURE_FRAME && requests == old(requests) && replies == old(replies)
      ensures err ==> lastTried == request
      ensures !err ==> lastTried == old(lastTried) && old(c.open)
      ensures err && old(c.open) && WritesCalmly(c.script, |Concat(old(requests))| + |request|) ==>
                Next(Responses, old(c.Rest())).None?
    {
      ghost var (sent, pos) := (c.sent, c.pos);
      reply, err := Exchange(c, request);
      if err {
        FailureKeepsPairing(requests, replies, c.script.incoming, sent, pos, request, c.sent, c.pos);
        failed, lastTried := true, request;
      } else {
        AnswerKeepsPairing(requests, replies, c.script.incoming, sent, pos, request, reply);
        requests, replies, answered := requests + [request], replies + [reply], answered + 1;
      }
    }
  }
}
