/**
 The two models of `Session` agree: whatever a sequence of calls on an Agent.Session does,
 the state machine of SessionMachine can do, with the same bytes, replies and outcomes. So
 what is proved of every run of the machine holds of every history of a session.
 */
module Simulation {
  import opened Bytes
  import opened Frames
  import opened Transport
  import opened Agent
  import SM = SessionMachine

  /** The goroutine that owns the session, and another one that may close it. */
  const OWNER: SM.Tid := 0
  const OTHER: SM.Tid := 1

  // ----- runs of one goroutine -----

  /** The owner is at `pc`, everyone else is outside every call. */
  datatype Config = Config(local: bool, pc: SM.Pc, link: SM.Link, wire: SM.Wire)

  function Lock(held: bool): Option<SM.Tid> {
    if held then Some(OWNER) else None
  }

  function Canon(c: Config): SM.State {
    SM.State(c.local, Lock(SM.InQuery(c.pc)), Lock(SM.InCritical(c.pc)), c.link, c.wire, map[OWNER := c.pc])
  }

  ghost predicate Sits(s: SM.State, c: Config) {
    && s == Canon(c).(pcs := s.pcs) && SM.At(s, OWNER) == c.pc
    && forall t: SM.Tid :: t != OWNER ==> SM.At(s, t) == SM.Idle
  }

  /** One step of the owner. */
  predicate Leads(c: Config, a: SM.Action, c': Config) {
    var after := SM.Next(Canon(c), OWNER, a);
    after.Some? && SM.At(after.value, OWNER) == c'.pc && after.value == Canon(c').(pcs := after.value.pcs)
  }

  /** A schedule from `base` that ends where the owner is in `at`. */
  datatype Run = Run(base: SM.State, schedule: seq<SM.Event>, at: Config)

  ghost predicate Good(run: Run) {
    Sits(SM.Execute(run.base, run.schedule), run.at)
  }

  /** The owner's step in s is its step in the canonical state. */
  predicate Same(s: SM.State, a: SM.Action, c': Config) {
    var after := SM.Next(s, OWNER, a);
    && after.Some? && SM.At(after.value, OWNER) == c'.pc
    && after.value == Canon(c').(pcs := after.value.pcs) && after.value.pcs == s.pcs[OWNER := c'.pc]
  }

  lemma SameCalling(s: SM.State, c: Config, a: SM.Action, c': Config)
    requires s == Canon(c).(pcs := s.pcs) && SM.At(s, OWNER) == c.pc && Leads(c, a, c') && SM.PhaseOf(a) == SM.Calling
    ensures Same(s, a, c')
  {
  }

  lemma SameLocking(s: SM.State, c: Config, a: SM.Action, c': Config)
    requires s == Canon(c).(pcs := s.pcs) && SM.At(s, OWNER) == c.pc && Leads(c, a, c') && SM.PhaseOf(a) == SM.Locking
    ensures Same(s, a, c')
  {
  }

  lemma SameCheckState(s: SM.State, c: Config, c': Config)
    requires s == Canon(c).(pcs := s.pcs) && SM.At(s, OWNER) == c.pc && Leads(c, SM.CheckState, c')
    ensures Same(s, SM.CheckState, c')
  {
  }

  lemma SamePublish(s: SM.State, c: Config, c': Config)
    requires s == Canon(c).(pcs := s.pcs) && SM.At(s, OWNER) == c.pc && Leads(c, SM.Publish, c')
    ensures Same(s, SM.Publish, c')
  {
  }

  lemma SameMarkClosed(s: SM.State, c: Config, c': Config)
    requires s == Canon(c).(pcs := s.pcs) && SM.At(s, OWNER) == c.pc && Leads(c, SM.MarkClosed, c')
    ensures Same(s, SM.MarkClosed, c')
  {
  }

  lemma SameDial(s: SM.State, c: Config, a: SM.Action, c': Config)
    requires s == Canon(c).(pcs := s.pcs) && SM.At(s, OWNER) == c.pc && Leads(c, a, c') && SM.PhaseOf(a) == SM.Dial
    ensures Same(s, a, c')
  {
  }

  lemma SameSends(s: SM.State, c: Config, a: SM.Action, c': Config)
    requires s == Canon(c).(pcs := s.pcs) && SM.At(s, OWNER) == c.pc && Leads(c, a, c') && SM.PhaseOf(a) == SM.Sends
    ensures Same(s, a, c')
  {
  }

  lemma SameReads(s: SM.State, c: Config, a: SM.Action, c': Config)
    requires s == Canon(c).(pcs := s.pcs) && SM.At(s, OWNER) == c.pc && Leads(c, a, c') && SM.PhaseOf(a) == SM.Reads
    ensures Same(s, a, c')
  {
  }

  lemma SameDisposal(s: SM.State, c: Config, a: SM.Action, c': Config)
    requires s == Canon(c).(pcs := s.pcs) && SM.At(s, OWNER) == c.pc && Leads(c, a, c') && SM.PhaseOf(a) == SM.Disposal
    ensures Same(s, a, c')
  {
  }

  lemma SameStep(s: SM.State, c: Config, a: SM.Action, c': Config)
    requires s == Canon(c).(pcs := s.pcs) && SM.At(s, OWNER) == c.pc && Leads(c, a, c')
    ensures Same(s, a, c')
  {
    match SM.PhaseOf(a)
    case Calling => SameCalling(s, c, a, c');
    case Locking => SameLocking(s, c, a, c');
    case Section =>
      if a == SM.CheckState {
        SameCheckState(s, c, c');
      } else if a == SM.Publish {
        SamePublish(s, c, c');
      } else {
        SameMarkClosed(s, c, c');
      }
    case Dial => SameDial(s, c, a, c');
    case Sends => SameSends(s, c, a, c');
    case Reads => SameReads(s, c, a, c');
    case Disposal => SameDisposal(s, c, a, c');
  }

  lemma StaysSeated(s: SM.State, c: Config, a: SM.Action, c': Config, s': SM.State)
    requires Sits(s, c) && Same(s, a, c') && SM.Next(s, OWNER, a) == Some(s')
    ensures Sits(s', c')
  {
    assert forall t: SM.Tid :: t != OWNER ==> SM.At(s', t) == SM.At(s, t);
  }

  lemma Move(run: Run, a: SM.Action, c': Config) returns (longer: Run)
    requires Good(run) && Leads(run.at, a, c')
    ensures Good(longer) && longer.base == run.base && longer.at == c'
  {
    var s := SM.Execute(run.base, run.schedule);
    SameStep(s, run.at, a, c');
    StaysSeated(s, run.at, a, c', SM.Next(s, OWNER, a).value);
    SM.ExecuteSnoc(run.base, run.schedule, SM.Thread(OWNER, a));
    longer := Run(run.base, run.schedule + [SM.Thread(OWNER, a)], c');
  }

  /** The agent writes. */
  lemma Feed(run: Run, data: bytes) returns (longer: Run)
    requires Good(run)
    ensures Good(longer) && longer.base == run.base
    ensures longer.at == run.at.(wire := run.at.wire.(output := run.at.wire.output + data))
  {
    var e := SM.AgentWrites(data);
    var s := SM.Execute(run.base, run.schedule);
    longer := Run(run.base, run.schedule + [e], run.at.(wire := run.at.wire.(output := run.at.wire.output + data)));
    SM.ExecuteSnoc(run.base, run.schedule, e);
    var s' := SM.Execute(run.base, longer.schedule);
    assert forall t: SM.Tid :: SM.At(s', t) == SM.At(s, t);
  }

  /** Another goroutine closes a session that has dialled nothing. */
  lemma OtherCloses(run: Run) returns (longer: Run)
    requires Good(run) && run.at.pc == SM.Idle && run.at.link == UNDIALLED
    ensures Good(longer) && longer.base == run.base
    ensures longer.at == run.at.(link := UNDIALLED.(closed := true))
  {
    var s := SM.Execute(run.base, run.schedule);
    var steps := [SM.Thread(OTHER, SM.CallClose), SM.Thread(OTHER, SM.LockState), SM.Thread(OTHER, SM.MarkClosed)];
    var s1 := SM.Do(s, steps[0]).value;
    var s2 := SM.Do(s1, steps[1]).value;
    var s3 := SM.Do(s2, steps[2]).value;
    SM.ExecuteSnoc(run.base, run.schedule, steps[0]);
    SM.ExecuteSnoc(run.base, run.schedule + [steps[0]], steps[1]);
    SM.ExecuteSnoc(run.base, run.schedule + [steps[0]] + [steps[1]], steps[2]);
    longer := Run(run.base, run.schedule + [steps[0]] + [steps[1]] + [steps[2]],
                  run.at.(link := UNDIALLED.(closed := true)));
    assert SM.At(s1, OTHER) == SM.WantClose(false) && SM.At(s2, OTHER) == SM.InClose(false);
    assert forall t: SM.Tid :: SM.At(s3, t) == if t == OTHER then SM.Idle else SM.At(s, t);
  }

  // ----- pieces of Query -----

  /** agent.go:72 */
  lemma Arrives(run: Run, request: bytes) returns (longer: Run)
    requires Good(run) && run.at.pc == SM.Idle
    ensures Good(longer) && longer.base == run.base && longer.at == run.at.(pc := SM.Checking(request))
  {
    longer := Move(run, SM.CallQuery(request), run.at.(pc := SM.WantQuery(request)));
    longer := Move(longer, SM.LockQuery, run.at.(pc := SM.Checking(request)));
  }

  /** agent.go:72-80 for a request that passes both checks. */
  lemma Enters(run: Run, request: bytes) returns (longer: Run)
    requires Good(run) && run.at.pc == SM.Idle && run.at.local && ValidRequest(request)
    ensures Good(longer) && longer.base == run.base && longer.at == run.at.(pc := SM.InState(request))
  {
    longer := Arrives(run, request);
    longer := Move(longer, SM.Validate, run.at.(pc := SM.WantState(request)));
    longer := Move(longer, SM.LockState, run.at.(pc := SM.InState(request)));
  }

  function Recorded(wire: SM.Wire, o: SM.Outcome): SM.Wire {
    wire.(log := wire.log + [o])
  }

  /** A request that is refused by a check before any lock on the state. */
  lemma Refuses(run: Run, request: bytes) returns (longer: Run)
    requires Good(run) && run.at.pc == SM.Idle && (!ValidRequest(request) || !run.at.local)
    ensures Good(longer) && longer.base == run.base
    ensures longer.at == if ValidRequest(request) then run.at.(wire := Recorded(run.at.wire, SM.Failed(request)))
                         else run.at
  {
    var after := if ValidRequest(request) then Recorded(run.at.wire, SM.Failed(request)) else run.at.wire;
    longer := Arrives(run, request);
    longer := Move(longer, SM.Validate, run.at.(pc := SM.Finishing, wire := after));
    longer := Move(longer, SM.UnlockQuery, run.at.(wire := after));
  }

  /** agent.go:81-84: the session is closed. */
  lemma FindsClosed(run: Run, request: bytes) returns (longer: Run)
    requires Good(run) && run.at.pc == SM.Idle && run.at.local && ValidRequest(request) && run.at.link.closed
    ensures Good(longer) && longer.base == run.base
    ensures longer.at == run.at.(wire := Recorded(run.at.wire, SM.Failed(request)))
  {
    var after := Recorded(run.at.wire, SM.Failed(request));
    longer := Enters(run, request);
    longer := Move(longer, SM.CheckState, run.at.(pc := SM.Finishing, wire := after));
    longer := Move(longer, SM.UnlockQuery, run.at.(wire := after));
  }

  const UNDIALLED := SM.Link(None, false, 0, [])
  const DIALLING := SM.Link(None, false, 1, [])
  const ORPHAN := SM.Link(None, false, 1, [0])
  const DIALLED := SM.Link(Some(0), false, 1, [0])
  const MARKED := SM.Link(None, true, 1, [0])
  const GONE := SM.Link(None, true, 1, [1])

  /** The first query comes to its dial. */
  lemma ComesToDial(run: Run, request: bytes) returns (longer: Run)
    requires Good(run) && run.at.pc == SM.Idle && run.at.local && ValidRequest(request)
    requires run.at.link == UNDIALLED
    ensures Good(longer) && longer.base == run.base
    ensures longer.at == run.at.(pc := SM.Dialing(request), link := DIALLING)
  {
    longer := Enters(run, request);
    longer := Move(longer, SM.CheckState, run.at.(pc := SM.Dialing(request), link := DIALLING));
  }

  /** agent.go:92-94: the dial fails. */
  lemma DialFails(run: Run, request: bytes) returns (longer: Run)
    requires Good(run) && run.at.pc == SM.Dialing(request) && run.at.link == DIALLING
    ensures Good(longer) && longer.base == run.base
    ensures longer.at == Config(run.at.local, SM.Idle, DIALLING.(closed := true),
                                Recorded(run.at.wire, SM.Failed(request)))
  {
    var after := Recorded(run.at.wire, SM.Failed(request));
    longer := Move(run, SM.DialError, run.at.(pc := SM.WantClose(true), wire := after));
    longer := Retires(longer);
  }

  lemma Publishes(run: Run, request: bytes) returns (longer: Run)
    requires Good(run) && run.at.pc == SM.WantPublish(request, 0) && run.at.link == ORPHAN
    ensures Good(longer) && longer.base == run.base
    ensures longer.at == run.at.(pc := SM.Sending(request, 0, 0), link := DIALLED)
  {
    longer := Move(run, SM.LockState, run.at.(pc := SM.InPublish(request, 0)));
    longer := Move(longer, SM.Publish, run.at.(pc := SM.Sending(request, 0, 0), link := DIALLED));
  }

  /** agent.go:96-103: the dial succeeds, and the agent writes all it will ever write. */
  lemma DialSucceeds(run: Run, request: bytes, incoming: bytes) returns (longer: Run)
    requires Good(run) && run.at.pc == SM.Dialing(request) && run.at.link == DIALLING && run.at.wire.output == []
    ensures Good(longer) && longer.base == run.base
    ensures longer.at == Config(run.at.local, SM.Sending(request, 0, 0), DIALLED,
                                run.at.wire.(output := incoming))
  {
    longer := Move(run, SM.DialOk, run.at.(pc := SM.WantPublish(request, 0), link := ORPHAN));
    longer := Publishes(longer, request);
    longer := Feed(longer, incoming);
    assert [] + incoming == incoming;
  }

  /** A later query finds the connection. */
  lemma FindsConnection(run: Run, request: bytes) returns (longer: Run)
    requires Good(run) && run.at.pc == SM.Idle && run.at.local && ValidRequest(request) && run.at.link == DIALLED
    ensures Good(longer) && longer.base == run.base && longer.at == run.at.(pc := SM.Sending(request, 0, 0))
  {
    longer := Enters(run, request);
    longer := Move(longer, SM.CheckState, run.at.(pc := SM.Sending(request, 0, 0)));
  }

  /** What an exchange leaves on the wire. */
  function Exchanged(wire: SM.Wire, out: bytes, k: nat, o: SM.Outcome): SM.Wire {
    SM.Wire(wire.sent + out, wire.output, wire.consumed + k, wire.log + [o])
  }

  lemma WritesAll(run: Run, request: bytes) returns (longer: Run)
    requires Good(run) && run.at.pc == SM.Sending(request, 0, 0) && run.at.link == DIALLED && request != []
    ensures Good(longer) && longer.base == run.base
    ensures longer.at == run.at.(pc := SM.Receiving(request, 0),
                                 wire := run.at.wire.(sent := run.at.wire.sent + request))
  {
    assert request[0..0 + |request|] == request;
    longer := Move(run, SM.Write(|request|, true),
                   run.at.(pc := SM.Receiving(request, 0), wire := run.at.wire.(sent := run.at.wire.sent + request)));
  }

  lemma ReplyLeads(c: Config, request: bytes, reply: bytes)
    requires c.pc == SM.Receiving(request, 0) && c.wire.consumed <= |c.wire.output|
    requires Next(Responses, c.wire.output[c.wire.consumed..]) == Some(reply)
    ensures Leads(c, SM.ReadReply(|reply|),
                  c.(pc := SM.Finishing, wire := Exchanged(c.wire, [], |reply|, SM.Answered(request, reply))))
  {
    Slices(c.wire.output, c.wire.consumed, |reply|);
    assert c.wire.sent + [] == c.wire.sent;
  }

  lemma ReadsReply(run: Run, request: bytes, reply: bytes) returns (longer: Run)
    requires Good(run) && run.at.pc == SM.Receiving(request, 0) && run.at.wire.consumed <= |run.at.wire.output|
    requires Next(Responses, run.at.wire.output[run.at.wire.consumed..]) == Some(reply)
    ensures Good(longer) && longer.base == run.base
    ensures longer.at == run.at.(pc := SM.Finishing,
                                 wire := Exchanged(run.at.wire, [], |reply|, SM.Answered(request, reply)))
  {
    ReplyLeads(run.at, request, reply);
    longer := Move(run, SM.ReadReply(|reply|),
                   run.at.(pc := SM.Finishing,
                           wire := Exchanged(run.at.wire, [], |reply|, SM.Answered(request, reply))));
  }

  /** The deferred unlock of agent.go:73. */
  lemma Leaves(run: Run) returns (longer: Run)
    requires Good(run) && run.at.pc == SM.Finishing
    ensures Good(longer) && longer.base == run.base && longer.at == run.at.(pc := SM.Idle)
  {
    longer := Move(run, SM.UnlockQuery, run.at.(pc := SM.Idle));
  }

  /** agent.go:105: the exchange succeeds. */
  lemma Answers(run: Run, request: bytes, reply: bytes) returns (longer: Run)
    requires Good(run) && run.at.pc == SM.Sending(request, 0, 0) && run.at.link == DIALLED && request != []
    requires run.at.wire.consumed <= |run.at.wire.output|
    requires Next(Responses, run.at.wire.output[run.at.wire.consumed..]) == Some(reply)
    ensures Good(longer) && longer.base == run.base
    ensures longer.at ==
            run.at.(pc := SM.Idle, wire := Exchanged(run.at.wire, request, |reply|, SM.Answered(request, reply)))
  {
    longer := WritesAll(run, request);
    longer := ReadsReply(longer, request, reply);
    longer := Leaves(longer);
    assert run.at.wire.sent + request + [] == run.at.wire.sent + request;
  }

  /** agent.go:105-107: the exchange fails after k bytes out and m bytes in, and the session is retired. */
  lemma Breaks(run: Run, request: bytes, k: nat, m: nat) returns (longer: Run)
    requires Good(run) && run.at.pc == SM.Sending(request, 0, 0) && run.at.link == DIALLED && request != []
    requires k <= |request| && (m > 0 ==> k == |request|)
    requires run.at.wire.consumed + m <= |run.at.wire.output|
    ensures Good(longer) && longer.base == run.base
    ensures longer.at == Config(run.at.local, SM.Idle, GONE,
                                Exchanged(run.at.wire, request[..k], m, SM.Failed(request)))
  {
    var after := Exchanged(run.at.wire, request[..k], m, SM.Failed(request));
    var c := run.at.(pc := SM.WantClose(true), wire := after);
    if m > 0 {
      longer := WritesAll(run, request);
      assert request[..k] == request;
      longer := Move(longer, SM.ReadError(m), c);
    } else {
      assert request[0..0 + k] == request[..k];
      longer := Move(run, SM.Write(k, false), c);
    }
    longer := Retires(longer);
  }

  lemma MarksAndCloses(c: Config, q: bool)
    requires c.link == DIALLED
    ensures Leads(c.(pc := SM.InClose(q)), SM.MarkClosed, c.(pc := SM.ClosingConn(q, 0), link := MARKED))
    ensures Leads(c.(pc := SM.ClosingConn(q, 0), link := MARKED), SM.CloseConn,
                  c.(pc := SM.AfterClose(q), link := GONE))
  {
    assert SM.Closed(MARKED, 0).closes == [1];
  }

  /** agent.go:114-126: the body of Close. */
  lemma Closes(run: Run, q: bool) returns (longer: Run)
    requires Good(run) && run.at.pc == SM.WantClose(q) && (run.at.link.conn.Some? ==> run.at.link == DIALLED)
    ensures Good(longer) && longer.base == run.base
    ensures longer.at == run.at.(pc := SM.AfterClose(q), link := ClosedLink(run.at.link))
  {
    longer := Move(run, SM.LockState, run.at.(pc := SM.InClose(q)));
    if run.at.link.conn.Some? {
      MarksAndCloses(run.at, q);
      longer := Move(longer, SM.MarkClosed, run.at.(pc := SM.ClosingConn(q, 0), link := MARKED));
      longer := Move(longer, SM.CloseConn, run.at.(pc := SM.AfterClose(q), link := GONE));
    } else {
      longer := Move(longer, SM.MarkClosed, run.at.(pc := SM.AfterClose(q), link := ClosedLink(run.at.link)));
    }
  }

  function ClosedLink(link: SM.Link): SM.Link {
    if link.conn.Some? then GONE else link.(closed := true, conn := None)
  }

  /** agent.go:93 and 107, and then the deferred unlock. */
  lemma Retires(run: Run) returns (longer: Run)
    requires Good(run) && run.at.pc == SM.WantClose(true) && (run.at.link.conn.Some? ==> run.at.link == DIALLED)
    ensures Good(longer) && longer.base == run.base
    ensures longer.at == run.at.(pc := SM.Idle, link := ClosedLink(run.at.link))
  {
    longer := Closes(run, true);
    longer := Move(longer, SM.UnlockQuery, longer.at.(pc := SM.Idle));
  }

  /** agent.go:113-128, called by the owner. */
  lemma OwnerCloses(run: Run) returns (longer: Run)
    requires Good(run) && run.at.pc == SM.Idle && (run.at.link.conn.Some? ==> run.at.link == DIALLED)
    ensures Good(longer) && longer.base == run.base && longer.at == run.at.(link := ClosedLink(run.at.link))
  {
    longer := Move(run, SM.CallClose, run.at.(pc := SM.WantClose(false)));
    longer := Closes(longer, false);
  }

  // ----- the correspondence -----

  function LinkOf(v: View): SM.Link {
    SM.Link(if v.connected then Some(0) else None, v.closed, v.dials,
            if v.line.None? then [] else if v.closed then [1] else [0])
  }

  /** The machine between calls, with the same history. */
  ghost predicate Related(world: World, v: View, s: SM.State) {
    && Sits(s, Config(world.local, SM.Idle, LinkOf(v), s.wire))
    && s.wire.sent == (if v.line.Some? then v.line.value.sent else [])
    && s.wire.consumed == (if v.line.Some? then v.line.value.pos else 0)
    && s.wire.output == (if v.line.Some? && world.agent.Some? then world.agent.value.incoming else [])
    && SM.Requests(s.wire.log) == v.requests && SM.Replies(s.wire.log) == v.replies
    && SM.Clean(s.wire.log) == !v.failed
  }

  /** What the machine records of a query; nothing when the request is not valid. */
  function Record(request: bytes, reply: bytes, err: bool): seq<SM.Outcome> {
    if !ValidRequest(request) then []
    else [if err then SM.Failed(request) else SM.Answered(request, reply)]
  }

  lemma NewIsRelated(world: World)
    ensures Sound(world, NEW) && Related(world, NEW, SM.Init(world.local))
  {
    assert forall t: SM.Tid :: SM.At(SM.Init(world.local), t) == SM.Idle;
  }

  /** Where a session is exactly when its exchange starts: a connection and no failure so far. */
  lemma OpenIsClean(world: World, v: View)
    requires Sound(world, v) && world.local && !v.closed
    ensures !v.failed && v.connected == v.line.Some?
    ensures v.line.Some? ==> LinkOf(v) == DIALLED && v.line.value == Line(Concat(v.requests), |Concat(v.replies)|)
    ensures v.line.None? ==> LinkOf(v) == UNDIALLED && v.requests == [] && v.replies == []
  {
  }

  lemma SetUp(world: World, v: View, s: SM.State) returns (run: Run)
    requires Related(world, v, s)
    ensures Good(run) && run.base == s && run.at == Config(world.local, SM.Idle, LinkOf(v), s.wire)
  {
    run := Run(s, [], Config(world.local, SM.Idle, LinkOf(v), s.wire));
    assert SM.Execute(s, []) == s;
  }

  /** The log after one more outcome, as a history. */
  lemma Recording(log: seq<SM.Outcome>, request: bytes, reply: bytes, err: bool)
    ensures var longer := log + Record(request, reply, err);
            var answered := ValidRequest(request) && !err;
            && SM.Requests(longer) == (if answered then SM.Requests(log) + [request] else SM.Requests(log))
            && SM.Replies(longer) == (if answered then SM.Replies(log) + [reply] else SM.Replies(log))
            && SM.Clean(longer) == (SM.Clean(log) && (ValidRequest(request) ==> !err))
  {
    if ValidRequest(request) {
      SM.LogSnoc(log, Record(request, reply, err)[0]);
    } else {
      assert log + [] == log;
    }
  }

  /** A query that a check refuses, or that finds the session closed. */
  lemma RefusedIsRun(world: World, v: View, request: bytes, reply: bytes, v': View, s: SM.State)
    returns (run: Run)
    requires Sound(world, v) && Related(world, v, s) && Queried(world, v, request, reply, true, v')
    requires !ValidRequest(request) || !world.local || v.closed
    ensures Good(run) && run.base == s
    ensures run.at == Config(world.local, SM.Idle, LinkOf(v'),
                             s.wire.(log := s.wire.log + Record(request, reply, true)))
  {
    run := SetUp(world, v, s);
    if ValidRequest(request) && world.local {
      run := FindsClosed(run, request);
    } else {
      run := Refuses(run, request);
      assert s.wire.log + [] == s.wire.log;
    }
  }

  /** A query that reaches its exchange. */
  lemma ReachesExchange(world: World, v: View, request: bytes, s: SM.State) returns (run: Run)
    requires Related(world, v, s) && LinkOf(v) == (if v.line.Some? then DIALLED else UNDIALLED)
    requires ValidRequest(request) && world.local && world.agent.Some?
    ensures Good(run) && run.base == s
    ensures run.at == Config(true, SM.Sending(request, 0, 0), DIALLED,
                             s.wire.(output := world.agent.value.incoming))
  {
    run := SetUp(world, v, s);
    if v.line.Some? {
      run := FindsConnection(run, request);
    } else {
      run := ComesToDial(run, request);
      run := DialSucceeds(run, request, world.agent.value.incoming);
    }
  }

  /** What an answer makes of the view, and where the reply was. */
  lemma AnsweredLine(world: World, v: View, request: bytes, reply: bytes, v': View)
    requires Sound(world, v) && Queried(world, v, request, reply, false, v')
    ensures ValidRequest(request) && world.local && !v.closed && world.agent.Some?
    ensures var (sent, pos) := (Concat(v.requests), |Concat(v.replies)|);
            && (v.line.Some? ==> v.line.value == Line(sent, pos))
            && v'.line == Some(Line(sent + request, pos + |reply|))
            && pos <= |world.agent.value.incoming|
            && Next(Responses, world.agent.value.incoming[pos..]) == Some(reply)
    ensures LinkOf(v') == DIALLED
  {
    OpenIsClean(world, v);
    OpenIsClean(world, v');
    ConcatSnoc(v.requests, request);
    ConcatSnoc(v.replies, reply);
    assert reply in v'.replies;
    RepliesGoOn(world.agent.value.incoming, v.replies, reply);
  }

  lemma AnsweredIsRun(world: World, v: View, request: bytes, reply: bytes, s: SM.State) returns (run: Run)
    requires Related(world, v, s) && LinkOf(v) == (if v.line.Some? then DIALLED else UNDIALLED)
    requires ValidRequest(request) && world.local && world.agent.Some?
    requires s.wire.consumed <= |world.agent.value.incoming|
    requires Next(Responses, world.agent.value.incoming[s.wire.consumed..]) == Some(reply)
    ensures Good(run) && run.base == s
    ensures run.at == Config(true, SM.Idle, DIALLED,
                             SM.Wire(s.wire.sent + request, world.agent.value.incoming, s.wire.consumed + |reply|,
                                     s.wire.log + Record(request, reply, false)))
  {
    run := ReachesExchange(world, v, request, s);
    run := Answers(run, request, reply);
  }

  lemma RepliesGoOn(incoming: bytes, replies: seq<bytes>, reply: bytes)
    requires ValidResponse(reply) && Concat(replies + [reply]) <= incoming
    ensures |Concat(replies)| <= |incoming| && Next(Responses, incoming[|Concat(replies)|..]) == Some(reply)
  {
    ConcatSnoc(replies, reply);
    BehindHead(incoming, Concat(replies), reply);
    NextOfFrame(Responses, reply, incoming[|Concat(replies)| + |reply|..]);
  }

  /** How much went out and came in before an exchange failed. */
  lemma BrokenLine(world: World, v: View, request: bytes, reply: bytes, v': View) returns (k: nat, m: nat)
    requires Sound(world, v) && Queried(world, v, request, reply, true, v')
    requires ValidRequest(request) && world.local && !v.closed && v'.line.Some?
    ensures var (sent, pos) := (Concat(v.requests), |Concat(v.replies)|);
            && k <= |request| && (m > 0 ==> k == |request|)
            && v'.line.value == Line(sent + request[..k], pos + m)
            && pos + m <= |world.agent.value.incoming|
  {
    OpenIsClean(world, v);
    var line := v'.line.value;
    var sent := Concat(v.requests);
    k := |line.sent| - |sent|;
    m := line.pos - |Concat(v.replies)|;
    assert line.sent == (sent + request)[..|sent| + k] == sent + request[..k];
  }

  lemma FailedIsRun(world: World, v: View, request: bytes, reply: bytes, v': View, s: SM.State)
    returns (run: Run)
    requires Sound(world, v) && Related(world, v, s) && Queried(world, v, request, reply, true, v')
    requires ValidRequest(request) && world.local && !v.closed
    ensures Good(run) && run.base == s && run.at.local && run.at.pc == SM.Idle && run.at.link == LinkOf(v')
    ensures run.at.wire.log == s.wire.log + Record(request, reply, true)
    ensures run.at.wire.sent == (if v'.line.Some? then v'.line.value.sent else [])
    ensures run.at.wire.consumed == (if v'.line.Some? then v'.line.value.pos else 0)
    ensures run.at.wire.output == (if v'.line.Some? then world.agent.value.incoming else [])
  {
    OpenIsClean(world, v);
    if v'.line.Some? {
      var k, m := BrokenLine(world, v, request, reply, v');
      run := ReachesExchange(world, v, request, s);
      run := Breaks(run, request, k, m);
    } else {
      run := SetUp(world, v, s);
      if v'.dials == 0 {
        run := OtherCloses(run);
        run := FindsClosed(run, request);
      } else {
        run := ComesToDial(run, request);
        run := DialFails(run, request);
      }
    }
  }

  /** Every query of a session is a run of the machine, with the same outcome on record. */
  lemma QueryIsRun(world: World, v: View, request: bytes, reply: bytes, err: bool, v': View, s: SM.State)
    returns (schedule: seq<SM.Event>)
    requires Sound(world, v) && Related(world, v, s) && Queried(world, v, request, reply, err, v')
    ensures Related(world, v', SM.Execute(s, schedule))
    ensures SM.Execute(s, schedule).wire.log == s.wire.log + Record(request, reply, err)
  {
    var run;
    if !ValidRequest(request) || !world.local || v.closed {
      run := RefusedIsRun(world, v, request, reply, v', s);
    } else if err {
      run := FailedIsRun(world, v, request, reply, v', s);
    } else {
      AnsweredLine(world, v, request, reply, v');
      OpenIsClean(world, v);
      run := AnsweredIsRun(world, v, request, reply, s);
    }
    schedule := run.schedule;
    Recording(s.wire.log, request, reply, err);
  }

  /** So is a Close by the session's owner. */
  lemma CloseIsRun(world: World, v: View, s: SM.State) returns (schedule: seq<SM.Event>)
    requires Sound(world, v) && Related(world, v, s)
    ensures var v' := v.(closed := true, connected := false);
            && Sound(world, v') && Related(world, v', SM.Execute(s, schedule))
            && SM.Execute(s, schedule).wire == s.wire
  {
    var run := SetUp(world, v, s);
    run := OwnerCloses(run);
    schedule := run.schedule;
  }

  // ----- whole histories -----

  datatype Event = Asked(request: bytes, reply: bytes, err: bool) | Shut

  ghost predicate Happens(world: World, v: View, e: Event, v': View) {
    match e
    case Asked(request, reply, err) => Queried(world, v, request, reply, err, v')
    case Shut => v' == v.(closed := true, connected := false)
  }

  /** A new session, and what one call after the other makes of it. */
  ghost predicate History(world: World, views: seq<View>, events: seq<Event>) {
    && |views| == |events| + 1 && views[0] == NEW
    && forall i :: 0 <= i < |events| ==> Happens(world, views[i], events[i], views[i + 1])
  }

  function Recordings(events: seq<Event>): seq<SM.Outcome> {
    if events == [] then [] else
      var last := events[|events| - 1];
      Recordings(events[..|events| - 1]) +
      (match last
       case Asked(request, reply, err) => Record(request, reply, err)
       case Shut => [])
  }

  /** Every history of a session is a run of the machine from its initial state. */
  lemma {:induction false} HistoryIsRun(world: World, views: seq<View>, events: seq<Event>)
    returns (schedule: seq<SM.Event>)
    requires History(world, views, events)
    ensures var s := SM.Execute(SM.Init(world.local), schedule);
            && Sound(world, views[|events|]) && Related(world, views[|events|], s)
            && s.wire.log == Recordings(events)
    decreases |events|
  {
    if events == [] {
      NewIsRelated(world);
      schedule := [];
    } else {
      var last := |events| - 1;
      var before := HistoryIsRun(world, views[..|events|], events[..last]);
      var s := SM.Execute(SM.Init(world.local), before);
      assert Happens(world, views[last], events[last], views[last + 1]);
      var more;
      match events[last] {
        case Asked(request, reply, err) =>
          more := QueryIsRun(world, views[last], request, reply, err, views[last + 1], s);
        case Shut =>
          more := CloseIsRun(world, views[last], s);
      }
      schedule := before + more;
      SM.ExecuteAppend(SM.Init(world.local), before, more);
    }
  }

  /**
   What that says of the machine: the same fields, the same answers, the same bytes on the
   wire, and no call under way.
   */
  lemma HistoryAgrees(world: World, views: seq<View>, events: seq<Event>) returns (s: SM.State)
    requires History(world, views, events)
    ensures exists schedule :: s == SM.Execute(SM.Init(world.local), schedule)
    ensures s.wire.log == Recordings(events)
    ensures var v := views[|events|];
            && s.link.closed == v.closed && s.link.dials == v.dials && s.link.conn.Some? == v.connected
            && SM.Requests(s.wire.log) == v.requests && SM.Replies(s.wire.log) == v.replies
            && (v.line.Some? ==> s.wire.sent == v.line.value.sent && s.wire.consumed == v.line.value.pos)
    ensures forall t: SM.Tid :: SM.At(s, t) == SM.Idle
  {
    var schedule := HistoryIsRun(world, views, events);
    s := SM.Execute(SM.Init(world.local), schedule);
  }
}
