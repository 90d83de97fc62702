/**
 The transports of the bridge: the named pipe of pageant/run_windows.go:416-477, which keeps
 one upstream session per client, and the legacy shared mapping of lines 302-342.
 */
module Bridge {
  import opened Bytes
  import opened Frames
  import opened SshStrings
  import opened Transport
  import opened Agent

  /** queryUsing: whatever the handler did, the client gets a valid frame. */
  function Normalized(request: bytes, result: bytes, err: bool): (reply: bytes)
    ensures ValidResponse(reply)
    ensures reply == result <==> (ValidRequest(request) && !err && ValidResponse(result)) || result == FAILURE_FRAME
    ensures reply == result || reply == FAILURE_FRAME
  {
    FailureFrameIsResponse();
    if !ValidRequest(request) || err || !ValidResponse(result) then FAILURE_FRAME else result
  }

  // ----- the reply stream of one client -----

  function Failures(n: nat): (answers: seq<bytes>)
    ensures |answers| == n && forall k :: 0 <= k < n ==> answers[k] == FAILURE_FRAME
  {
    if n == 0 then [] else Failures(n - 1) + [FAILURE_FRAME]
  }

  /** What a client that sent n requests gets: the agent's replies, then failure frames. */
  function Answers(replies: seq<bytes>, n: nat): (answers: seq<bytes>)
    requires |replies| <= n
    ensures |answers| == n
    ensures forall k :: 0 <= k < n ==> answers[k] == if k < |replies| then replies[k] else FAILURE_FRAME
  {
    replies + Failures(n - |replies|)
  }

  lemma AnswersGrow(replies: seq<bytes>, n: nat, reply: bytes)
    requires |replies| <= n
    ensures Answers(replies, n + 1) == Answers(replies, n) + [FAILURE_FRAME]
    ensures |replies| == n ==> Answers(replies + [reply], n + 1) == Answers(replies, n) + [reply]
  {
  }

  /** Reading one request frame, in reads of any size. */
  method ReadRequest(client: Conn) returns (request: bytes, ok: bool)
    requires client.Valid() && client.open
    modifies client`pos, client`empties
    ensures client.Valid() && old(client.pos) <= client.pos
    ensures ok ==> Next(Requests, old(client.Rest())) == Some(request)
    ensures ok ==> client.pos == old(client.pos) + |request|
    ensures !ok && Next(Requests, old(client.Rest())).Some? ==>
              && client.pos <= old(client.pos) + |Next(Requests, old(client.Rest())).value|
              && Hit(client.script, client.pos, |client.sent|)
  {
    ghost var stream := client.Rest();
    ghost var atStart := Fault(Deadline, client.pos, |client.sent|);
    var err := client.SetDeadline();
    if err {
      return [], false;
    }
    var first;
    first, err := ReadBehind(client, [], 1);
    if err {
      return [], false;
    }
    assert first == stream[..1];
    ghost var afterOne := Fault(Deadline, client.pos, |client.sent|);
    err := client.SetDeadline();
    if err {
      return [], false;
    }
    request, ok := ReadBody(client, first, stream);
  }

  /** The rest of a frame once its first byte has come (run_windows.go:453-464). */
  method ReadBody(client: Conn, first: bytes, ghost stream: bytes) returns (request: bytes, ok: bool)
    requires client.Valid() && client.open && |stream| > 0
    requires first == stream[..1] && client.Rest() == stream[1..]
    modifies client`pos, client`empties
    ensures client.Valid() && old(client.pos) <= client.pos
    ensures ok ==> Next(Requests, stream) == Some(request) && client.pos == old(client.pos) + |request| - 1
    ensures !ok && Next(Requests, stream).Some? ==>
              && client.pos < old(client.pos) + |Next(Requests, stream).value|
              && Hit(client.script, client.pos, |client.sent|)
  {
    request, ok := [], false;
    var prefix, err := ReadBehind(client, first, 3);
    if err {
      FrameNeeds(Requests, stream, 4);
      return;
    }
    NextChunk(stream, 1, 3);
    var n := DecodeU32(prefix);
    if n < 1 || n > MAX_REQUEST_PAYLOAD {
      NoFrame(Requests, stream);
      return;
    }
    request, err := ReadBehind(client, prefix, n);
    if err {
      FrameNeeds(Requests, stream, 4 + n);
      return;
    }
    NextChunk(stream, 4, n);
    FrameRead(Requests, stream);
    ok := true;
  }

  /** The write loop of pipeListen; it stops on an error or on a write of nothing. */
  method WriteReply(client: Conn, result: bytes) returns (ok: bool)
    requires client.script.lawful && client.open
    modifies client`sent
    ensures old(client.sent) <= client.sent <= old(client.sent) + result
    ensures ok ==> client.sent == old(client.sent) + result
    ensures !ok ==> Hit(client.script, client.pos, |client.sent|)
  {
    var remaining := result;
    while |remaining| > 0
      invariant |remaining| <= |result| && remaining == result[|result| - |remaining|..]
      invariant client.sent == old(client.sent) + result[..|result| - |remaining|]
    {
      ghost var at := Fault(Writing, client.pos, |client.sent|);
      var n, err, delivered := client.Write(remaining);
      var done := |result| - |remaining|;
      assert result[..done] + remaining[..delivered] == result[..done + delivered];
      if err || n == 0 {
        return false;
      }
      remaining := remaining[n..];
    }
    return true;
  }

  /** run_windows.go:466-475 */
  method Deliver(client: Conn, result: bytes) returns (ok: bool)
    requires client.script.lawful && client.open
    modifies client`sent
    ensures old(client.sent) <= client.sent <= old(client.sent) + result
    ensures ok ==> client.sent == old(client.sent) + result
    ensures !ok ==> Hit(client.script, client.pos, |client.sent|)
  {
    ghost var at := Fault(Deadline, client.pos, |client.sent|);
    var err := client.SetDeadline();
    if err {
      assert at in client.script.faults;
      return false;
    }
    ok := WriteReply(client, result);
  }

  // ----- what the environment allows -----

  /**
   Request k of `handled` gets through: the agent is there, nobody closes the session before
   k answers, no call on the agent's connection fails up to the end of request k and of its
   reply, and the agent's output has a valid frame for it.
   */
  ghost predicate Granted(world: World, handled: seq<bytes>, k: nat) {
    && k < |handled| && world.local && world.agent.Some? && k < world.left
    && k < |Split(Responses, world.agent.value.incoming)|
    && WritesCalmly(world.agent.value, |Concat(handled[..k + 1])|)
  }

  /** What gets request k through gets the earlier ones through, whatever comes after. */
  lemma GrantedBefore(world: World, handled: seq<bytes>, k: nat, j: nat, more: seq<bytes>)
    requires Granted(world, handled, k) && j <= k && |more| > j && more[..j + 1] == handled[..j + 1]
    ensures Granted(world, more, j)
  {
    assert handled[..j + 1] <= handled[..k + 1];
    ConcatPrefix(handled[..j + 1], handled[..k + 1]);
  }

  /** A granted request is one that the session's own environment favours. */
  lemma GrantedIsFavoured(world: World, handled: seq<bytes>, replies: seq<bytes>)
    requires |replies| < |handled| && Granted(world, handled, |replies|)
    ensures Favours(world, handled[..|replies|], replies, handled[|replies|])
  {
    ConcatNext(handled, |replies|);
  }

  // ----- pipeListen with the built-in handler -----

  /** The requests in `handled` head the client's stream. */
  predicate HeadOf(handled: seq<bytes>, stream: bytes) {
    (forall f :: f in handled ==> ValidRequest(f)) && Concat(handled) <= stream
  }

  /** Where the session of one client is after the requests in `handled`. */
  ghost predicate Served(session: Session, handled: seq<bytes>)
    reads session, session.Upstream()
  {
    && session.Valid() && session.Settled()
    && |session.requests| <= |handled| && session.requests == handled[..|session.requests|]
    && session.failed == (|session.requests| < |handled|)
    && (session.failed ==> session.lastTried == handled[|session.requests|])
    && (session.failed ==> !Granted(session.world, handled, |session.requests|))
  }

  /** Nothing but a failure or another goroutine has closed the session. */
  ghost predicate Willing(session: Session)
    reads session
  {
    session.closed ==> session.failed || session.MayBeClosed()
  }

  /** The first unanswered request can be granted only if it is this one and its session favours it. */
  lemma GrantedNow(session: Session, handled: seq<bytes>, request: bytes)
    requires Served(session, handled)
    ensures Granted(session.world, handled + [request], |session.requests|) ==>
              !session.failed && Favours(session.world, session.requests, session.replies, request)
  {
    var now := handled + [request];
    var m := |session.requests|;
    if Granted(session.world, now, m) {
      if session.failed {
        GrantedBefore(session.world, now, m, m, handled);
      } else {
        assert now[..m] == session.requests && now[m] == request;
        GrantedIsFavoured(session.world, now, session.replies);
      }
    }
  }

  /** One turn of queryUsing over the client's session. */
  method QueryUsing(session: Session, request: bytes, ghost handled: seq<bytes>) returns (result: bytes)
    requires Served(session, handled) && Willing(session) && ValidRequest(request)
    modifies session, session.Upstream()
    ensures Served(session, handled + [request]) && Willing(session)
    ensures old(session.link) == null && session.link != null ==> fresh(session.link)
    ensures old(session.link) != null ==> session.link == old(session.link)
    ensures Answers(session.replies, |handled| + 1) == Answers(old(session.replies), |handled|) + [result]
  {
    ghost var before := session.replies;
    GrantedNow(session, handled, request);
    var reply, err := session.Query(request);
    result := Normalized(request, reply, err);
    AnswersGrow(before, |handled|, reply);
    if !err {
      assert reply in session.replies;
    }
  }

  /**
   Frame number `done` of the client's stream cannot be served: there is no such frame, or
   some call on the client's connection fails up to its end.
   */
  ghost predicate Blocked(script: Script, done: nat) {
    var frames := Split(Requests, script.incoming);
    done == |frames| || (done < |frames| && !ReadsCalmly(script, |Concat(frames[..done + 1])|))
  }

  lemma StopsBlocked(script: Script, handled: seq<bytes>, pos: nat, written: nat)
    requires HeadOf(handled, script.incoming)
    requires var next := Next(Requests, script.incoming[|Concat(handled)|..]);
             next.Some? ==> pos <= |Concat(handled)| + |next.value| && Hit(script, pos, written)
    ensures Blocked(script, |handled|)
  {
    var frames := Split(Requests, script.incoming);
    FramesAtHead(Requests, handled, script.incoming);
    if |handled| < |frames| {
      ConcatNext(frames, |handled|);
      assert frames[..|handled|] == handled;
      assert frames[|handled|..][0] == frames[|handled|];
    }
  }

  /** The next request of the stream follows those served. */
  lemma HeadGrows(handled: seq<bytes>, stream: bytes, request: bytes)
    requires HeadOf(handled, stream) && Next(Requests, stream[|Concat(handled)|..]) == Some(request)
    ensures HeadOf(handled + [request], stream)
    ensures |Concat(handled + [request])| == |Concat(handled)| + |request|
  {
    ConcatSnoc(handled, request);
    PrefixGrows(Concat(handled), request, stream);
  }

  /** The loop is over: the first `done` answers are delivered and the next frame is blocked. */
  ghost predicate Stopped(script: Script, sent: bytes, replies: seq<bytes>, handled: seq<bytes>, done: nat) {
    && |replies| <= |handled| && done <= |handled|
    && Concat(Answers(replies, |handled|)[..done]) <= sent
    && Blocked(script, done)
  }

  /** It is over after a request that could not be read. */
  lemma StoppedReading(script: Script, sent: bytes, replies: seq<bytes>, handled: seq<bytes>, pos: nat)
    requires HeadOf(handled, script.incoming) && |replies| <= |handled|
    requires sent == Concat(Answers(replies, |handled|))
    requires var next := Next(Requests, script.incoming[|Concat(handled)|..]);
             next.Some? ==> pos <= |Concat(handled)| + |next.value| && Hit(script, pos, |sent|)
    ensures Stopped(script, sent, replies, handled, |handled|)
  {
    StopsBlocked(script, handled, pos, |sent|);
    var answers := Answers(replies, |handled|);
    assert answers[..|handled|] == answers;
  }

  /** It is over after an answer that could not be delivered. */
  lemma StoppedWriting(script: Script, sent: bytes, replies: seq<bytes>, handled: seq<bytes>, request: bytes)
    requires HeadOf(handled, script.incoming) && |replies| <= |handled| + 1
    requires Next(Requests, script.incoming[|Concat(handled)|..]) == Some(request)
    requires Concat(Answers(replies, |handled| + 1)[..|handled|]) <= sent
    requires Hit(script, |Concat(handled)| + |request|, |sent|)
    ensures Stopped(script, sent, replies, handled + [request], |handled|)
  {
    StopsBlocked(script, handled, |Concat(handled)| + |request|, |sent|);
  }

  /** The answer to one request, from the agent or the failure frame, and its delivery. */
  method Respond(client: Conn, session: Session, request: bytes, ghost handled: seq<bytes>) returns (ok: bool)
    requires Served(session, handled) && Willing(session) && ValidRequest(request)
    requires session.link != client && client.script.lawful && client.open
    requires client.sent == Concat(Answers(session.replies, |handled|))
    modifies client`sent, session, session.Upstream()
    ensures Served(session, handled + [request]) && Willing(session)
    ensures client.open && client.pos == old(client.pos)
    ensures old(session.link) == null && session.link != null ==> fresh(session.link)
    ensures old(session.link) != null ==> session.link == old(session.link)
    ensures var answers := Answers(session.replies, |handled| + 1);
            && Concat(answers[..|handled|]) <= client.sent <= Concat(answers)
            && (ok ==> client.sent == Concat(answers))
    ensures !ok ==> Hit(client.script, client.pos, |client.sent|)
  {
    ghost var given := Answers(session.replies, |handled|);
    var result := QueryUsing(session, request, handled);
    ConcatSnoc(given, result);
    assert (given + [result])[..|handled|] == given;
    ok := Deliver(client, result);
  }

  /** The turn of the loop once the request has been read. */
  method ServeRequest(client: Conn, session: Session, request: bytes, ghost handled: seq<bytes>)
    returns (more: bool)
    requires Served(session, handled) && Willing(session) && HeadOf(handled, client.script.incoming)
    requires client.Valid() && client.script.lawful && client.open && session.link != client
    requires Next(Requests, client.script.incoming[|Concat(handled)|..]) == Some(request)
    requires client.pos == |Concat(handled)| + |request|
    requires client.sent == Concat(Answers(session.replies, |handled|))
    modifies client`sent, session, session.Upstream()
    ensures var now := handled + [request];
            && Served(session, now) && Willing(session) && HeadOf(now, client.script.incoming)
            && client.Valid() && client.open && client.pos == old(client.pos) == |Concat(now)|
            && client.sent <= Concat(Answers(session.replies, |now|))
            && (more ==> client.sent == Concat(Answers(session.replies, |now|)))
            && (!more ==> Stopped(client.script, client.sent, session.replies, now, |handled|))
    ensures old(session.link) == null && session.link != null ==> fresh(session.link)
    ensures old(session.link) != null ==> session.link == old(session.link)
  {
    HeadGrows(handled, client.script.incoming, request);
    more := Respond(client, session, request, handled);
    if !more {
      StoppedWriting(client.script, client.sent, session.replies, handled, request);
    }
  }

  /**
   One turn of the loop. Nothing more is served once `more` is false; then the first `done`
   answers have been delivered, and the environment blocks the next one.
   */
  method ServeOne(client: Conn, session: Session, ghost handled: seq<bytes>)
    returns (more: bool, ghost now: seq<bytes>, ghost done: nat)
    requires Served(session, handled) && Willing(session) && HeadOf(handled, client.script.incoming)
    requires client.Valid() && client.script.lawful && client.open && session.link != client
    requires client.pos == |Concat(handled)| && client.sent == Concat(Answers(session.replies, |handled|))
    modifies client`pos, client`empties, client`sent, session, session.Upstream()
    ensures Served(session, now) && Willing(session) && HeadOf(now, client.script.incoming)
    ensures client.Valid() && |handled| <= |now| <= |handled| + 1
    ensures old(session.link) == null && session.link != null ==> fresh(session.link)
    ensures old(session.link) != null ==> session.link == old(session.link)
    ensures more ==> client.pos == |Concat(now)| && old(client.pos) < client.pos
    ensures more ==> client.sent == Concat(Answers(session.replies, |now|))
    ensures client.open && client.sent <= Concat(Answers(session.replies, |now|))
    ensures !more ==> Stopped(client.script, client.sent, session.replies, now, done)
  {
    now, done := handled, |handled|;
    var request, ok := ReadRequest(client);
    if !ok {
      StoppedReading(client.script, client.sent, session.replies, handled, client.pos);
      return false, now, done;
    }
    now := handled + [request];
    more := ServeRequest(client, session, request, handled);
  }

  /**
   Whole-bridge transparency for one client. The requests served are the first frames of the
   client's stream. The agent got a prefix of those frames: all the answered ones and at most
   a part of the next. The client got a prefix of the answers: the k-th is the k-th frame of
   the agent until the first failure, and exactly the failure frame from then on.
   */
  ghost predicate Transparent(client: Conn, session: Session, handled: seq<bytes>)
    reads client, session, session.Upstream()
  {
    var m := |session.requests|;
    && handled <= Split(Requests, client.script.incoming)
    && m == |session.replies| <= |handled| && session.requests == handled[..m]
    && client.sent <= Concat(Answers(session.replies, |handled|))
    && (session.link == null ==> m == 0)
    && (session.link != null ==>
          && session.world.agent == Some(session.link.script)
          && session.replies <= Split(Responses, session.link.script.incoming)
          && Concat(handled[..m]) <= session.link.sent
          && session.link.sent <= Concat(if m < |handled| then handled[..m + 1] else handled))
  }

  /**
   Nothing is dropped without a cause in the environment. The first n frames of the client's
   stream are served and their answers delivered in full, unless a call on the client's
   connection fails up to the end of frame n; and a request that the environment grants is
   answered by the agent.
   */
  ghost predicate Complete(client: Conn, session: Session, handled: seq<bytes>)
    reads client, session
  {
    var frames := Split(Requests, client.script.incoming);
    && |session.replies| <= |handled|
    && (forall n :: 0 <= n <= |frames| && ReadsCalmly(client.script, |Concat(frames[..n])|) ==>
          n <= |handled| && Concat(Answers(session.replies, |handled|)[..n]) <= client.sent)
    && (forall k: nat :: Granted(session.world, handled, k) ==> k < |session.replies|)
  }

  lemma SentIsPrefix(handled: seq<bytes>, m: nat, sent: bytes)
    requires m <= |handled| && sent <= Concat(handled[..m]) + (if m < |handled| then handled[m] else [])
    ensures sent <= Concat(if m < |handled| then handled[..m + 1] else handled)
  {
    if m < |handled| {
      ConcatNext(handled, m);
    } else {
      assert handled[..m] == handled;
    }
  }

  lemma ServedIsTransparent(client: Conn, session: Session, handled: seq<bytes>)
    requires Served(session, handled) && HeadOf(handled, client.script.incoming)
    requires client.sent <= Concat(Answers(session.replies, |handled|))
    ensures Transparent(client, session, handled)
  {
    FramesAtHead(Requests, handled, client.script.incoming);
    if session.link != null {
      SentIsPrefix(handled, |session.requests|, session.link.sent);
      assert session.replies <= Split(Responses, session.link.script.incoming) by {
        FramesAtHead(Responses, session.replies, session.link.script.incoming);
      }
    }
  }

  lemma BlockedBehind(script: Script, done: nat, n: nat)
    requires Blocked(script, done) && done < n <= |Split(Requests, script.incoming)|
    ensures !ReadsCalmly(script, |Concat(Split(Requests, script.incoming)[..n])|)
  {
    var frames := Split(Requests, script.incoming);
    assert frames[..done + 1] <= frames[..n];
    ConcatPrefix(frames[..done + 1], frames[..n]);
  }

  lemma ServedIsComplete(client: Conn, session: Session, handled: seq<bytes>, done: nat)
    requires Served(session, handled)
    requires Stopped(client.script, client.sent, session.replies, handled, done)
    ensures Complete(client, session, handled)
  {
    var frames := Split(Requests, client.script.incoming);
    var answers := Answers(session.replies, |handled|);
    forall n | 0 <= n <= |frames| && ReadsCalmly(client.script, |Concat(frames[..n])|)
      ensures n <= |handled| && Concat(answers[..n]) <= client.sent
    {
      if n > done {
        BlockedBehind(client.script, done, n);
        assert false;
      }
      assert answers[..n] <= answers[..done];
      ConcatPrefix(answers[..n], answers[..done]);
    }
    forall k: nat | Granted(session.world, handled, k)
      ensures k < |session.replies|
    {
      if |session.replies| <= k {
        GrantedBefore(session.world, handled, k, |session.replies|, handled);
      }
    }
  }

  /** The frames of some payloads, one after the other. */
  function Framed(payloads: seq<bytes>): (frames: seq<bytes>)
    requires forall p :: p in payloads ==> |p| < 0x1_0000_0000
    ensures |frames| == |payloads| && forall i :: 0 <= i < |payloads| ==> frames[i] == Frame(payloads[i])
  {
    if payloads == [] then [] else Framed(payloads[..|payloads| - 1]) + [Frame(payloads[|payloads| - 1])]
  }

  /** 1 to 16379 bytes each. */
  predicate RequestPayloads(qs: seq<bytes>) {
    forall q :: q in qs ==> 1 <= |q| <= 16379
  }

  /** 1 to 262144 bytes each, and none a failure of more than its type byte. */
  predicate ReplyPayloads(ps: seq<bytes>) {
    forall p :: p in ps ==> 1 <= |p| <= 262144 && (p[0] == 5 ==> |p| == 1)
  }

  /** No call fails and nobody closes anything; the two peers send these frames and no more. */
  ghost predicate Calm(client: Script, world: World, requests: seq<bytes>, replies: seq<bytes>) {
    && client.faults == {} && client.incoming == Concat(requests)
    && world.local && world.left >= |requests| == |replies|
    && world.agent.Some? && world.agent.value.faults == {} && world.agent.value.incoming == Concat(replies)
  }

  /**
   The bridge works: in a calm world a client that sends the framings of `qs` to an agent that
   answers with the framings of `ps` is served them all; the agent gets exactly the client's
   bytes and the client exactly the agent's, request for reply.
   */
  lemma CalmBridge(client: Conn, session: Session, handled: seq<bytes>, qs: seq<bytes>, ps: seq<bytes>)
    requires Transparent(client, session, handled) && Complete(client, session, handled)
    requires RequestPayloads(qs) && ReplyPayloads(ps)
    requires Calm(client.script, session.world, Framed(qs), Framed(ps))
    ensures handled == Framed(qs) && session.replies == Framed(ps) && client.sent == Concat(Framed(ps))
    ensures qs != [] ==> session.link != null && session.link.sent == Concat(Framed(qs))
  {
    FramedSplits(qs, ps);
    CalmFrames(client, session, handled, Framed(qs), Framed(ps));
  }

  /** The same of the frames that the two streams are made of. */
  lemma CalmFrames(client: Conn, session: Session, handled: seq<bytes>, requests: seq<bytes>, replies: seq<bytes>)
    requires Transparent(client, session, handled) && Complete(client, session, handled)
    requires Calm(client.script, session.world, requests, replies)
    requires Split(Requests, Concat(requests)) == requests && Split(Responses, Concat(replies)) == replies
    ensures handled == requests && session.replies == replies && client.sent == Concat(replies)
    ensures requests != [] ==> session.link != null && session.link.sent == Concat(requests)
  {
    AllServed(client, session, handled, requests);
    AllAnswered(client, session, handled, replies);
    assert handled[..|requests|] == handled;
  }

  /**
   Up to the first failing call: the first n frames of the client are served and answered when
   every fault on its connection lies behind them.
   */
  lemma FirstFramesServed(client: Conn, session: Session, handled: seq<bytes>, n: nat)
    requires Transparent(client, session, handled) && Complete(client, session, handled)
    requires n <= |Split(Requests, client.script.incoming)|
    requires forall f :: f in client.script.faults ==>
               f.read > |Concat(Split(Requests, client.script.incoming)[..n])|
    ensures n <= |handled| && handled[..n] == Split(Requests, client.script.incoming)[..n]
    ensures Concat(Answers(session.replies, |handled|)[..n]) <= client.sent
  {
  }

  /**
   And the first n requests are answered by the agent, with its first n frames, when every
   fault on its connection lies behind them and nobody closes the session before that.
   */
  lemma FirstRequestsAnswered(client: Conn, session: Session, handled: seq<bytes>, n: nat)
    requires Transparent(client, session, handled) && Complete(client, session, handled)
    requires session.world.local && session.world.agent.Some? && n <= session.world.left && n <= |handled|
    requires n <= |Split(Responses, session.world.agent.value.incoming)|
    requires forall f :: f in session.world.agent.value.faults ==> f.written > |Concat(handled[..n])|
    ensures n <= |session.replies|
    ensures Answers(session.replies, |handled|)[..n] == Split(Responses, session.world.agent.value.incoming)[..n]
  {
    if n > 0 {
      assert Granted(session.world, handled, n - 1);
    }
  }

  lemma AllServed(client: Conn, session: Session, handled: seq<bytes>, frames: seq<bytes>)
    requires Transparent(client, session, handled) && Complete(client, session, handled)
    requires client.script.faults == {} && Split(Requests, client.script.incoming) == frames
    ensures handled == frames && client.sent == Concat(Answers(session.replies, |handled|))
  {
    var n := |frames|;
    assert ReadsCalmly(client.script, |Concat(frames[..n])|);
    var answers := Answers(session.replies, |handled|);
    assert handled == frames;
    assert answers[..n] == answers;
  }

  lemma AllAnswered(client: Conn, session: Session, handled: seq<bytes>, frames: seq<bytes>)
    requires Transparent(client, session, handled) && Complete(client, session, handled)
    requires session.world.local && session.world.left >= |handled| == |frames|
    requires session.world.agent.Some? && session.world.agent.value.faults == {}
    requires Split(Responses, session.world.agent.value.incoming) == frames
    ensures session.replies == frames && Answers(session.replies, |handled|) == frames
  {
    if |frames| > 0 {
      assert Granted(session.world, handled, |frames| - 1);
    }
  }

  lemma FramedSplits(qs: seq<bytes>, ps: seq<bytes>)
    requires RequestPayloads(qs) && ReplyPayloads(ps)
    ensures Split(Requests, Concat(Framed(qs))) == Framed(qs)
    ensures Split(Responses, Concat(Framed(ps))) == Framed(ps)
  {
    forall i | 0 <= i < |qs|
      ensures Valid(Requests, Framed(qs)[i])
    {
      assert qs[i] in qs;
      FramedExact(qs[i]);
    }
    forall i | 0 <= i < |ps|
      ensures Valid(Responses, Framed(ps)[i])
    {
      assert ps[i] in ps;
      FramedExact(ps[i]);
    }
    SplitsBack(Requests, Framed(qs));
    SplitsBack(Responses, Framed(ps));
  }

  lemma SplitsBack(dir: Direction, frames: seq<bytes>)
    requires forall f :: f in frames ==> Valid(dir, f)
    ensures Split(dir, Concat(frames)) == frames
  {
    SplitOfConcat(dir, frames, []);
    assert Concat(frames) + [] == Concat(frames);
    assert Split(dir, []) == [];
    assert frames + [] == frames;
  }

  /** The loop over the requests of one client. */
  method Serve(client: Conn, session: Session) returns (ghost handled: seq<bytes>, ghost done: nat)
    requires Served(session, []) && client.Valid() && client.script.lawful && client.open
    requires client.pos == 0 && client.sent == []
    requires session.link == null && session.replies == [] && !session.closed
    modifies client`pos, client`empties, client`sent, session
    ensures Served(session, handled) && HeadOf(handled, client.script.incoming)
    ensures client.Valid() && (session.link != null ==> fresh(session.link))
    ensures client.sent <= Concat(Answers(session.replies, |handled|))
    ensures Stopped(client.script, client.sent, session.replies, handled, done)
  {
    handled, done := [], 0;
    var more := true;
    while more
      invariant session.link != null ==> fresh(session.link)
      invariant Served(session, handled) && Willing(session) && HeadOf(handled, client.script.incoming)
      invariant client.Valid() && client.open
      invariant client.sent <= Concat(Answers(session.replies, |handled|))
      invariant more ==>
                  client.pos == |Concat(handled)| && client.sent == Concat(Answers(session.replies, |handled|))
      invariant !more ==> Stopped(client.script, client.sent, session.replies, handled, done)
      decreases more, |client.script.incoming| - client.pos
    {
      more, handled, done := ServeOne(client, session, handled);
    }
  }

  /** pipeListen: `closing` is what the worker reads under mu before it registers. */
  method PipeListen(client: Conn, world: World, closing: bool)
    returns (session: Session, ghost handled: seq<bytes>)
    requires client.Valid() && client.script.lawful && client.open && client.pos == 0 && client.sent == []
    modifies client
    ensures fresh(session) && session.Valid() && session.world == world && session.closed && !client.open
    ensures Transparent(client, session, handled)
    ensures closing ==> handled == [] && session.dials == 0
    ensures !closing ==> Complete(client, session, handled)
  {
    session := new Session(world);
    handled := [];
    if !closing {
      ghost var done;
      handled, done := Serve(client, session);
      session.Close();
      client.Close();
      ServedIsComplete(client, session, handled, done);
    } else {
      session.Close();
      client.Close();
    }
    ServedIsTransparent(client, session, handled);
  }

  // ----- one-shot queries -----

  const SESSION_BIND := "session-bind@openssh.com"

  /** isSessionBind, for a valid request. */
  predicate IsSessionBind(request: bytes)
    requires |request| >= 5
  {
    request[4] == 27 && TakeString(request[5..]).Some? && TakeString(request[5..]).value.0 == Ascii(SESSION_BIND)
  }

  /** The payload of a session binding: type 27, the string of 24 bytes that names it, and its data. */
  function BindPayload(data: bytes): bytes {
    [27] + ([0, 0, 0, 24] + BIND_NAME + data)
  }

  const BIND_NAME: bytes := [115, 101, 115, 115, 105, 111, 110, 45, 98, 105, 110, 100,
                             64, 111, 112, 101, 110, 115, 115, 104, 46, 99, 111, 109]

  /** The framing of such a payload, when it is within bounds. */
  ghost predicate BindsSession(request: bytes) {
    exists data: bytes :: |data| <= 16350 && request == Frame(BindPayload(data))
  }

  lemma NameSpelled()
    ensures Ascii(SESSION_BIND) == BIND_NAME && EncodeString(Ascii(SESSION_BIND)) == [0, 0, 0, 24] + BIND_NAME
  {
    AsciiExact(SESSION_BIND);
    WordExact([0, 0, 0, 24], 24);
    StringSpelled(BIND_NAME);
  }

  lemma BindIsRecognised(data: bytes)
    requires |data| <= 16350
    ensures ValidRequest(Frame(BindPayload(data))) && IsSessionBind(Frame(BindPayload(data)))
  {
    var request := Frame(BindPayload(data));
    FramedExact(BindPayload(data));
    NameSpelled();
    assert request[4] == BindPayload(data)[0];
    assert request[5..] == EncodeString(Ascii(SESSION_BIND)) + data;
    TakeStringExact(request[5..], Ascii(SESSION_BIND), data);
  }

  lemma RecognisedBinds(request: bytes)
    requires ValidRequest(request) && IsSessionBind(request)
    ensures BindsSession(request)
  {
    var data := TakeString(request[5..]).value.1;
    NameSpelled();
    TakeStringExact(request[5..], Ascii(SESSION_BIND), data);
    ValidFrameExact(request, MAX_REQUEST_PAYLOAD);
    assert request[5..] == [0, 0, 0, 24] + BIND_NAME + data;
    TypeThenRest(request);
    assert request == Frame(BindPayload(data));
  }

  lemma TypeThenRest(request: bytes)
    requires |request| >= 5
    ensures request[4..] == [request[4]] + request[5..]
  {
  }

  /** isSessionBind finds exactly session bindings. */
  lemma SessionBindExact(request: bytes)
    ensures (ValidRequest(request) && IsSessionBind(request)) <==> BindsSession(request)
  {
    if ValidRequest(request) && IsSessionBind(request) {
      RecognisedBinds(request);
    }
    if BindsSession(request) {
      var data: bytes :| |data| <= 16350 && request == Frame(BindPayload(data));
      BindIsRecognised(data);
    }
  }

  /**
   QueryAgent (agent.go:41-48): exactly a session binding is refused without a session; any
   other request has a session of its own, which is closed when the call returns, and is
   answered when the environment lets it through.
   */
  method QueryAgent(world: World, request: bytes) returns (reply: bytes, err: bool, session: Session?)
    ensures session == null <==> BindsSession(request)
    ensures session == null ==> err
    ensures session != null ==> fresh(session) && OneShot(world, request, reply, err, session)
    ensures err ==> reply == FAILURE_FRAME
  {
    SessionBindExact(request);
    if ValidRequest(request) && IsSessionBind(request) {
      return FAILURE_FRAME, true, null;
    }
    reply, err, session := QueryOnce(world, request);
  }

  /** A session that has served one request, with success whenever the environment lets it through. */
  ghost predicate OneShot(world: World, request: bytes, reply: bytes, err: bool, session: Session)
    reads session, session.Upstream()
  {
    && session.Valid() && session.world == world && session.closed && |session.requests| <= 1
    && (ValidRequest(request) && Favours(world, [], [], request) ==> !err)
    && (!err ==>
          && session.requests == [request] && session.replies == [reply] && session.link != null
          && world.agent == Some(session.link.script) && session.link.sent == request
          && Next(Responses, session.link.script.incoming) == Some(reply))
  }

  method QueryOnce(world: World, request: bytes) returns (reply: bytes, err: bool, session: Session)
    ensures fresh(session) && OneShot(world, request, reply, err, session)
    ensures err ==> reply == FAILURE_FRAME
  {
    session := new Session(world);
    reply, err := session.Query(request);
    session.Close();
    if !err {
      ConcatOne(request);
      ConcatOne(reply);
      ghost var output := session.link.script.incoming;
      assert output == reply + output[|reply|..];
      NextOfFrame(Responses, reply, output[|reply|..]);
    }
  }

  // ----- the shared mapping -----

  /** The client owns the mapping too and may rewrite all of it at any moment. */
  method ClientWrites(view: array<byte>, contents: bytes)
    requires |contents| == view.Length
    modifies view
    ensures view[..] == contents
  {
    var i := 0;
    while i < view.Length
      invariant i <= view.Length && view[..i] == contents[..i]
    {
      view[i] := contents[i];
      i := i + 1;
    }
  }

  /** The client may write between any two bytes of the answer: `during[i]` stands there before byte i. */
  predicate Rewrites(during: seq<bytes>, size: nat) {
    |during| == size && forall i :: 0 <= i < |during| ==> |during[i]| == size
  }

  /** `trace[i]` is the mapping after byte i: the bridge has changed that byte and no other. */
  predicate Written(answer: bytes, during: seq<bytes>, trace: seq<bytes>) {
    && |trace| <= |answer| <= |during| && (forall i :: 0 <= i < |trace| ==> i < |during[i]|)
    && forall i :: 0 <= i < |trace| ==> trace[i] == during[i][i := answer[i]]
  }

  method WriteAnswer(view: array<byte>, answer: bytes, during: seq<bytes>) returns (ghost trace: seq<bytes>)
    requires 0 < |answer| <= view.Length && Rewrites(during, view.Length)
    modifies view
    ensures Written(answer, during, trace) && |trace| == |answer| && view[..] == trace[|answer| - 1]
  {
    trace := [];
    var i := 0;
    while i < |answer|
      invariant i <= |answer| && |trace| == i && Written(answer, during, trace)
      invariant i > 0 ==> view[..] == trace[i - 1]
    {
      ClientWrites(view, during[i]);
      view[i] := answer[i];
      trace := trace + [view[..]];
      i := i + 1;
    }
  }

  /** A client that leaves alone what has been written finds the whole answer there. */
  lemma AnswerStands(answer: bytes, during: seq<bytes>, trace: seq<bytes>)
    requires answer != [] && Written(answer, during, trace) && |trace| == |answer|
    requires forall i :: 0 < i < |answer| ==> i < |during[i]| && during[i][..i] == answer[..i]
    ensures trace[|answer| - 1] == answer + during[|answer| - 1][|answer|..]
  {
    var last := |answer| - 1;
    assert during[last][..last] == answer[..last];
    Rejoined(during[last], last, |during[last]|);
    assert answer == answer[..last] + [answer[last]];
  }

  /** The mapping begins with the length n, and 1 to 16379 bytes of that number fit behind it. */
  predicate Fits(n: nat, contents: bytes) {
    1 <= n <= 16379 && n + 4 <= |contents| && contents[..4] == EncodeU32(n)
  }

  /** A reply within the protocol's bounds that fits into what the legacy protocol uses of the mapping. */
  predicate Passable(result: bytes, size: nat) {
    && 5 <= |result| <= 16383 && |result| <= size && result[..4] == EncodeU32(|result| - 4)
    && (result[4] == 5 ==> |result| == 5)
  }

  /**
   The copied request reached the handler exactly if its own length is right, and what was
   written is the handler's result if it may pass, and the failure frame otherwise.
   */
  predicate HandledAs(request: bytes, result: bytes, failed: bool, size: nat, during: seq<bytes>,
                      asked: Option<bytes>, trace: seq<bytes>, view: bytes)
    requires |request| >= 4 && |request| - 4 < 0x1_0000_0000
  {
    var intact := request[..4] == EncodeU32(|request| - 4);
    var answer := if intact && !failed && Passable(result, size) then result else [0, 0, 0, 1, 5];
    && asked == (if intact then Some(request) else None)
    && Written(answer, during, trace) && |trace| == |answer| && view == trace[|answer| - 1]
  }

  lemma LengthFits(contents: bytes, length: nat)
    requires |contents| >= 5 && length == DecodeU32(contents[..4])
    ensures forall n: nat :: Fits(n, contents) <==> n == length && 1 <= n <= 16379 && n + 4 <= |contents|
  {
    EncodeOfDecode(contents[..4]);
    forall n: nat | Fits(n, contents)
      ensures n == length
    {
      DecodeOfEncode(n);
    }
  }

  /** What goes back: normalized, and the failure frame when it does not fit. */
  function MappedAnswer(request: bytes, result: bytes, failed: bool, capacity: nat): (answer: bytes)
    requires capacity >= 5
    ensures ValidResponse(answer) && |answer| <= capacity
    ensures answer == result <==>
            (!failed && ValidRequest(request) && ValidResponse(result) && |result| <= capacity)
            || result == FAILURE_FRAME
    ensures answer == result || answer == FAILURE_FRAME
  {
    FailureFrameIsResponse();
    var reply := Normalized(request, result, failed);
    if |reply| > capacity then FAILURE_FRAME else reply
  }

  lemma MappedAnswerExact(request: bytes, result: bytes, failed: bool, size: nat)
    requires 5 <= |request| <= 16383 && size >= 5
    ensures ValidRequest(request) <==> request[..4] == EncodeU32(|request| - 4)
    ensures MappedAnswer(request, result, failed, if size > 16383 then 16383 else size) ==
            if request[..4] == EncodeU32(|request| - 4) && !failed && Passable(result, size) then result
            else [0, 0, 0, 1, 5]
  {
    RequestExact(request);
    ResponseExact(result);
    FrameSpelled([]);
  }

  /**
   handleCopyData from the mapped view on (run_windows.go:298-319), for every way the client
   rewrites the mapping while the bridge works: it holds `atLength` when the length is read,
   `atCopy` when the request is copied and `during[i]` when byte i of the answer is written.
   Bytes read one by one are the bytes of some contents. `ready` says that the name, the
   mapping, its owner and the view passed their checks; `result` and `failed` are what the
   handler would answer, `asked` the request it was consulted with.
   */
  method HandleCopyData(view: array<byte>, ready: bool, result: bytes, failed: bool,
                        atLength: bytes, atCopy: bytes, during: seq<bytes>)
    returns (handled: nat, asked: Option<bytes>, ghost trace: seq<bytes>)
    requires |atLength| == |atCopy| == view.Length && Rewrites(during, view.Length)
    modifies view
    ensures handled == 1 || handled == 0
    ensures handled == 1 <==> ready && view.Length >= 5 && exists n: nat :: Fits(n, atLength)
    ensures handled == 0 ==> asked.None? && view[..] == if ready && view.Length >= 5 then atLength else old(view[..])
    ensures forall n: nat :: handled == 1 && Fits(n, atLength) ==>
              HandledAs(atCopy[..n + 4], result, failed, view.Length, during, asked, trace, view[..])
  {
    handled, asked, trace := 0, None, [];
    if !ready || view.Length < 5 {
      return;
    }
    var n := view.Length;
    if n > MAX_MESSAGE {
      n := MAX_MESSAGE;
    }
    ClientWrites(view, atLength);
    var length := DecodeU32(view[..4]);
    LengthFits(atLength, length);
    assert Fits(length, atLength) <==> 1 <= length <= n - 4;
    if length < 1 || length > n - 4 {
      return;
    }
    ClientWrites(view, atCopy);
    var request := view[..length + 4];
    if ValidRequest(request) {
      asked := Some(request);
    }
    var reply := Normalized(request, result, failed);
    if |reply| > n {
      reply := FAILURE_FRAME;
    }
    MappedAnswerExact(request, result, failed, view.Length);
    trace := WriteAnswer(view, reply, during);
    handled := 1;
    assert HandledAs(request, result, failed, view.Length, during, asked, trace, view[..]);
  }

  /** A header rewritten between the two reads is caught: then the handler is never asked. */
  lemma RewrittenHeaderIsCaught(atLength: bytes, atCopy: bytes, n: nat)
    requires |atLength| == |atCopy| >= 5 && Fits(n, atLength)
    ensures ValidRequest(atCopy[..n + 4]) <==> atCopy[..4] == atLength[..4]
  {
    RequestExact(atCopy[..n + 4]);
    assert atCopy[..n + 4][..4] == atCopy[..4];
  }
}
