/**
 The downstream server of pageant/run_windows.go: the acceptor, one worker per admitted
 client, and closeConnections, under every interleaving. The mutex `mu` of runtimeState is
 explicit. Each worker with the built-in handler has its own upstream session, and that
 session is a whole SessionMachine state: its goroutine 0 is the worker, its goroutine 1 is
 closeConnections, so the windows inside Query and Close are windows here too.
 */
module ShutdownMachine {
  import opened Bytes
  import SM = SessionMachine

  type Id = nat

  const MAX_CLIENTS := 32
  const WORKER: SM.Tid := 0
  const CLOSER: SM.Tid := 1

  datatype Party = Acceptor | Worker(id: Id) | Shutdown

  datatype AcceptorPc =
    | Accepting
    | WantAdmit(id: Id)
    | InAdmit(id: Id)
    | Rejecting(id: Id)
    | Spawning(id: Id)
    | AcceptorDone

  datatype WorkerPc =
    | Unborn
    | WantRegister
    | InRegister
    | Serving
    | WantDeregister
    | InDeregister
    | CallingClose
    | InSessionClose
    | ClosingClient
    | WantForget
    | InForget
    | Ended

  /** closeConnections: the clients and upstreams its two loops have yet to visit. */
  datatype ShutdownPc =
    | NotStarted
    | WantMu
    | Closing(clients: set<Id>, upstreams: set<Id>)
    | InClose(upstreams: set<Id>, id: Id)
    | Returned

  /** The shared maps, the flag, and which accepted connections have been closed. */
  datatype Registry = Registry(clients: set<Id>, upstreams: set<Id>, closing: bool, closed: set<Id>)

  datatype State = State(
    local: bool,
    mu: Option<Party>,
    reg: Registry,
    accepted: nat,
    acceptor: AcceptorPc,
    shutdown: ShutdownPc,
    workers: map<Id, WorkerPc>,
    sessions: map<Id, SM.State>)

  function Init(local: bool): State {
    State(local, None, Registry({}, {}, false, {}), 0, Accepting, NotStarted, map[], map[])
  }

  function WorkerAt(s: State, id: Id): WorkerPc {
    if id in s.workers then s.workers[id] else Unborn
  }

  function SessionAt(s: State, id: Id): SM.State {
    if id in s.sessions then s.sessions[id] else SM.Init(s.local)
  }

  function MoveWorker(s: State, id: Id, pc: WorkerPc): State {
    s.(workers := s.workers[id := pc])
  }

  function Lock(s: State, p: Party): State {
    s.(mu := Some(p))
  }

  // ----- the steps -----

  /** pipeProxy, run_windows.go:395-414, after Accept has returned a connection. */
  function AcceptorStep(s: State): Option<State> {
    match s.acceptor
    case WantAdmit(id) =>
      if s.mu.None? then Some(Lock(s, Acceptor).(acceptor := InAdmit(id))) else None
    case InAdmit(id) =>
      if s.reg.closing || |s.reg.clients| >= MAX_CLIENTS then Some(s.(mu := None, acceptor := Rejecting(id)))
      else Some(s.(mu := None, acceptor := Spawning(id), reg := s.reg.(clients := s.reg.clients + {id})))
    case Rejecting(id) =>
      Some(s.(acceptor := Accepting, reg := s.reg.(closed := s.reg.closed + {id})))
    case Spawning(id) =>
      Some(MoveWorker(s, id, WantRegister).(acceptor := Accepting, sessions := s.sessions[id := SM.Init(s.local)]))
    case _ => None
  }

  /** pipeListen and its defers, run_windows.go:409-439, apart from the queries it makes. */
  function WorkerStep(s: State, id: Id): Option<State> {
    match WorkerAt(s, id)
    case WantRegister => if s.mu.None? then Some(MoveWorker(Lock(s, Worker(id)), id, InRegister)) else None
    case InRegister =>
      if s.reg.closing then Some(MoveWorker(s, id, CallingClose).(mu := None))
      else Some(MoveWorker(s, id, Serving).(mu := None, reg := s.reg.(upstreams := s.reg.upstreams + {id})))
    case Serving => if SM.At(SessionAt(s, id), WORKER).Idle? then Some(MoveWorker(s, id, WantDeregister)) else None
    case WantDeregister => if s.mu.None? then Some(MoveWorker(Lock(s, Worker(id)), id, InDeregister)) else None
    case InDeregister =>
      Some(MoveWorker(s, id, CallingClose).(mu := None, reg := s.reg.(upstreams := s.reg.upstreams - {id})))
    case CallingClose =>
      var called := SM.Next(SessionAt(s, id), WORKER, SM.CallClose);
      if called.None? then None
      else Some(MoveWorker(s, id, InSessionClose).(sessions := s.sessions[id := called.value]))
    case InSessionClose =>
      if SM.At(SessionAt(s, id), WORKER).Idle? then Some(MoveWorker(s, id, ClosingClient)) else None
    case ClosingClient => Some(MoveWorker(s, id, WantForget).(reg := s.reg.(closed := s.reg.closed + {id})))
    case WantForget => if s.mu.None? then Some(MoveWorker(Lock(s, Worker(id)), id, InForget)) else None
    case InForget => Some(MoveWorker(s, id, Ended).(mu := None, reg := s.reg.(clients := s.reg.clients - {id})))
    case _ => None
  }

  /** closeConnections, run_windows.go:381-392; `id` is the element its loop visits next. */
  function ShutdownStep(s: State, id: Id): Option<State> {
    match s.shutdown
    case NotStarted => Some(s.(shutdown := WantMu))
    case WantMu =>
      if s.mu.None? then
        Some(Lock(s, Shutdown).(reg := s.reg.(closing := true),
                                shutdown := Closing(s.reg.clients, s.reg.upstreams)))
      else None
    case Closing(clients, upstreams) =>
      if id in clients then
        Some(s.(shutdown := Closing(clients - {id}, upstreams), reg := s.reg.(closed := s.reg.closed + {id})))
      else if clients == {} && id in upstreams then
        var called := SM.Next(SessionAt(s, id), CLOSER, SM.CallClose);
        if called.None? then None
        else Some(s.(shutdown := InClose(upstreams - {id}, id), sessions := s.sessions[id := called.value]))
      else if clients == {} && upstreams == {} then Some(s.(shutdown := Returned, mu := None))
      else None
    case InClose(upstreams, current) =>
      if SM.At(SessionAt(s, current), CLOSER).Idle? then Some(s.(shutdown := Closing({}, upstreams))) else None
    case Returned => None
  }

  /** Inside a session: the agent writes, a serving worker starts a query, or a call goes on. */
  predicate Allowed(s: State, id: Id, e: SM.Event) {
    match e
    case AgentWrites(_) => true
    case Thread(t, a) =>
      if a.CallQuery? then t == WORKER && WorkerAt(s, id).Serving?
      else !a.CallClose? && (t == WORKER || t == CLOSER)
  }

  function SessionStep(s: State, id: Id, e: SM.Event): Option<State> {
    if id !in s.sessions || !Allowed(s, id, e) then None else
      var after := SM.Do(s.sessions[id], e);
      if after.Some? then Some(s.(sessions := s.sessions[id := after.value])) else None
  }

  datatype Event =
    | AcceptOk
    | AcceptError
    | AcceptorGo
    | WorkerGo(id: Id)
    | ShutdownGo(id: Id)
    | InSession(id: Id, e: SM.Event)

  function Do(s: State, e: Event): Option<State> {
    match e
    case AcceptOk =>
      if s.acceptor.Accepting? then Some(s.(acceptor := WantAdmit(s.accepted), accepted := s.accepted + 1)) else None
    case AcceptError => if s.acceptor.Accepting? then Some(s.(acceptor := AcceptorDone)) else None
    case AcceptorGo => AcceptorStep(s)
    case WorkerGo(id) => WorkerStep(s, id)
    case ShutdownGo(id) => ShutdownStep(s, id)
    case InSession(id, e) => SessionStep(s, id, e)
  }

  function Execute(s: State, schedule: seq<Event>): State {
    if schedule == [] then s
    else
      var before := Execute(s, schedule[..|schedule| - 1]);
      var after := Do(before, schedule[|schedule| - 1]);
      if after.Some? then after.value else before
  }

  // ----- the invariant -----

  /** The connection the acceptor has in hand: accepted, not yet handed to a worker. */
  predicate InHand(pc: AcceptorPc, id: Id) {
    pc == WantAdmit(id) || pc == InAdmit(id) || pc == Rejecting(id) || pc == Spawning(id)
  }

  predicate Registered(pc: WorkerPc) {
    pc.Serving? || pc.WantDeregister? || pc.InDeregister?
  }

  predicate ClientGone(pc: WorkerPc) {
    pc.WantForget? || pc.InForget? || pc.Ended?
  }

  predicate HoldsMu(pc: WorkerPc) {
    pc.InRegister? || pc.InDeregister? || pc.InForget?
  }

  predicate IdOk(s: State, id: Id) {
    var pc := WorkerAt(s, id);
    && (id in s.sessions <==> !pc.Unborn?)
    && (id in s.reg.clients <==> (!pc.Unborn? && !pc.Ended?) || s.acceptor == Spawning(id))
    && (id in s.reg.upstreams <==> Registered(pc))
    && (ClientGone(pc) ==> id in s.reg.closed)
    && (id < s.accepted <==> id in s.reg.clients || id in s.reg.closed || InHand(s.acceptor, id))
    && (InHand(s.acceptor, id) ==> id < s.accepted && pc.Unborn?)
    && (!pc.Unborn? ==> id < s.accepted)
    && (s.mu == Some(Worker(id)) <==> HoldsMu(pc))
  }

  predicate CallsClose(s: State, id: Id) {
    s.shutdown.InClose? && s.shutdown.id == id
  }

  /** Where the worker's own goroutine is inside its session. */
  predicate WorkerInSession(pc: WorkerPc, session: SM.State) {
    var at := SM.At(session, WORKER);
    match pc
    case Serving => SM.Querier(at)
    case InSessionClose => SM.Closer(at) && (at.Idle? ==> session.link.closed)
    case Unborn => at.Idle? && session == SM.Init(session.local)
    case WantRegister => at.Idle?
    case InRegister => at.Idle?
    case WantDeregister => at.Idle?
    case InDeregister => at.Idle?
    case CallingClose => at.Idle?
    case _ => at.Idle? && session.link.closed
  }

  ghost predicate SessionOk(pc: WorkerPc, calling: bool, session: SM.State) {
    && SM.Inv(session)
    && (forall t: SM.Tid :: t != WORKER && t != CLOSER ==> SM.At(session, t).Idle?)
    && WorkerInSession(pc, session)
    && SM.Closer(SM.At(session, CLOSER))
    && (SM.At(session, CLOSER).Idle? ==> !calling || session.link.closed)
    && (!calling ==> SM.At(session, CLOSER).Idle?)
  }

  /** What closeConnections has yet to close. */
  function ClientsLeft(s: State): set<Id> {
    if s.shutdown.Closing? then s.shutdown.clients else {}
  }

  function UpstreamsLeft(s: State): set<Id> {
    match s.shutdown
    case Closing(_, us) => us
    case InClose(us, id) => us + {id}
    case _ => {}
  }

  predicate Global(s: State) {
    && |s.reg.clients| <= MAX_CLIENTS
    && (s.mu == Some(Acceptor) <==> s.acceptor.InAdmit?)
    && (s.mu == Some(Shutdown) <==> s.shutdown.Closing? || s.shutdown.InClose?)
    && (s.reg.closing <==> s.shutdown.Closing? || s.shutdown.InClose? || s.shutdown.Returned?)
    && ClientsLeft(s) <= s.reg.clients && UpstreamsLeft(s) <= s.reg.upstreams
    && (s.shutdown.InClose? ==> s.shutdown.id !in s.shutdown.upstreams)
  }

  ghost predicate Swept(s: State, id: Id) {
    s.reg.closing ==>
      && (id in s.reg.clients && id !in ClientsLeft(s) ==> id in s.reg.closed)
      && (id in s.reg.upstreams && id !in UpstreamsLeft(s) ==> SM.Silenced(SessionAt(s, id)))
  }

  ghost predicate Each(s: State, id: Id) {
    IdOk(s, id) && SessionOk(WorkerAt(s, id), CallsClose(s, id), SessionAt(s, id)) && Swept(s, id)
  }

  ghost predicate Inv(s: State) {
    Global(s) && forall id: Id :: Each(s, id)
  }

  // ----- every step keeps the invariant -----

  lemma AcceptIds(s: State, e: Event, s': State, id: Id)
    requires Do(s, e) == Some(s') && (e.AcceptOk? || e.AcceptError?) && IdOk(s, id)
    ensures IdOk(s', id)
    ensures s' == s.(accepted := s'.accepted, acceptor := s'.acceptor) && !s.acceptor.InAdmit? && !s'.acceptor.InAdmit?
  {
  }

  lemma AcceptKept(s: State, e: Event, s': State)
    requires Inv(s) && Do(s, e) == Some(s') && (e.AcceptOk? || e.AcceptError?)
    ensures Inv(s')
  {
    forall id: Id
      ensures Each(s', id)
    {
      assert Each(s, id);
      AcceptIds(s, e, s', id);
      assert SessionAt(s', id) == SessionAt(s, id) && WorkerAt(s', id) == WorkerAt(s, id);
    }
    assert Each(s, 0);
    AcceptIds(s, e, s', 0);
  }

  /** The bookkeeping of one connection across a step; sessions play no part in it. */
  lemma AcceptorIds(s: State, s': State, id: Id)
    requires AcceptorStep(s) == Some(s') && Global(s) && IdOk(s, id)
    ensures IdOk(s', id) && SessionAt(s', id) == SessionAt(s, id)
    ensures s'.workers == s.workers || (s.acceptor.Spawning? && s'.workers == s.workers[s.acceptor.id := WantRegister])
    ensures s'.shutdown == s.shutdown
  {
  }

  lemma AcceptorGlobal(s: State, s': State)
    requires AcceptorStep(s) == Some(s') && Global(s)
    ensures Global(s')
    ensures s.reg.upstreams == s'.reg.upstreams && s.reg.closed <= s'.reg.closed && s.reg.closing == s'.reg.closing
    ensures s.reg.closing ==> s'.reg.clients == s.reg.clients
  {
  }

  lemma AcceptorKept(s: State, s': State)
    requires Inv(s) && AcceptorStep(s) == Some(s')
    ensures Inv(s')
  {
    AcceptorGlobal(s, s');
    forall id: Id
      ensures Each(s', id)
    {
      assert Each(s, id);
      AcceptorIds(s, s', id);
    }
  }

  /** A worker's step changes its own program counter, session and entries, and the mutex. */
  predicate WorkerDelta(s: State, w: Id, s': State) {
    && w in s'.workers && s'.workers == s.workers[w := s'.workers[w]]
    && (s'.sessions == s.sessions || (w in s'.sessions && s'.sessions == s.sessions[w := s'.sessions[w]]))
    && s'.local == s.local && s'.accepted == s.accepted && s'.acceptor == s.acceptor && s'.shutdown == s.shutdown
    && (s'.mu == s.mu || (s.mu.None? && s'.mu == Some(Worker(w))) || (s.mu == Some(Worker(w)) && s'.mu.None?))
    && s.reg.closing == s'.reg.closing
    && s.reg.clients - {w} <= s'.reg.clients <= s.reg.clients
    && s.reg.upstreams - {w} <= s'.reg.upstreams <= s.reg.upstreams + {w}
    && s.reg.closed <= s'.reg.closed <= s.reg.closed + {w}
  }

  lemma WorkerOwn(s: State, w: Id, s': State)
    requires WorkerStep(s, w) == Some(s') && IdOk(s, w)
    ensures IdOk(s', w)
  {
  }

  lemma WorkerChanges(s: State, w: Id, s': State)
    requires WorkerStep(s, w) == Some(s') && IdOk(s, w)
    ensures WorkerDelta(s, w, s')
    ensures s.reg.closing ==> s'.reg.upstreams <= s.reg.upstreams
  {
  }

  lemma WorkerOthers(s: State, w: Id, s': State, id: Id)
    requires WorkerDelta(s, w, s') && id != w && IdOk(s, id)
    ensures IdOk(s', id) && WorkerAt(s', id) == WorkerAt(s, id) && SessionAt(s', id) == SessionAt(s, id)
  {
  }

  lemma WorkerGlobal(s: State, w: Id, s': State)
    requires WorkerStep(s, w) == Some(s') && WorkerDelta(s, w, s') && Global(s) && IdOk(s, w)
    ensures Global(s')
  {
    if s.mu == Some(Shutdown) {
      assert s'.reg.clients == s.reg.clients && s'.reg.upstreams == s.reg.upstreams;
    }
  }

  /** A worker enters Close from outside every call, and leaves a queryable session alone. */
  lemma WorkerSession(s: State, w: Id, s': State)
    requires WorkerStep(s, w) == Some(s') && WorkerInSession(WorkerAt(s, w), SessionAt(s, w))
    ensures WorkerInSession(WorkerAt(s', w), SessionAt(s', w))
    ensures SessionAt(s', w) == SessionAt(s, w) ||
            (WorkerAt(s, w).CallingClose? && SM.Next(SessionAt(s, w), WORKER, SM.CallClose) == Some(SessionAt(s', w)))
  {
  }

  lemma CallOpens(session: SM.State, t: SM.Tid, after: SM.State)
    requires SM.Inv(session) && SM.Next(session, t, SM.CallClose) == Some(after)
    ensures SM.Inv(after) && after.link == session.link
    ensures SM.At(after, t) == SM.WantClose(false)
    ensures forall u: SM.Tid :: u != t ==> SM.At(after, u) == SM.At(session, u)
  {
    SM.StepKeepsInv(session, t, SM.CallClose, after);
  }

  lemma WorkerKept(s: State, w: Id, s': State)
    requires Inv(s) && WorkerStep(s, w) == Some(s')
    ensures Inv(s')
  {
    assert Each(s, w);
    WorkerChanges(s, w, s');
    WorkerGlobal(s, w, s');
    WorkerOwn(s, w, s');
    WorkerSession(s, w, s');
    if SessionAt(s', w) != SessionAt(s, w) {
      CallOpens(SessionAt(s, w), WORKER, SessionAt(s', w));
    }
    forall id: Id
      ensures Each(s', id)
    {
      assert Each(s, id);
      if id != w {
        WorkerOthers(s, w, s', id);
      }
    }
  }

  // ----- closeConnections -----

  lemma ShutdownChanges(s: State, x: Id, s': State)
    requires ShutdownStep(s, x) == Some(s') && Global(s)
    ensures Global(s')
    ensures s' == s.(mu := s'.mu, reg := s'.reg, shutdown := s'.shutdown, sessions := s'.sessions)
    ensures s'.reg == s.reg.(closing := s'.reg.closing, closed := s'.reg.closed) && s.reg.closed <= s'.reg.closed
    ensures s'.mu == s.mu || (s.mu.None? && s'.mu == Some(Shutdown)) || (s.mu == Some(Shutdown) && s'.mu.None?)
  {
  }

  /** What one visit of the two loops closes; the first visit snapshots both maps. */
  lemma ShutdownSweeps(s: State, x: Id, s': State, id: Id)
    requires ShutdownStep(s, x) == Some(s') && Swept(s, id)
    requires s.reg.closing <==> s.shutdown.Closing? || s.shutdown.InClose? || s.shutdown.Returned?
    requires SessionAt(s', id) == SessionAt(s, id)
    requires CallsClose(s, id) && !CallsClose(s', id) ==> SM.Silenced(SessionAt(s, id))
    ensures Swept(s', id)
  {
  }

  lemma ShutdownSession(s: State, x: Id, s': State)
    requires ShutdownStep(s, x) == Some(s') && Global(s) && IdOk(s, x)
    ensures s'.sessions == s.sessions ||
            (&& x in s.sessions && x in s'.sessions && s'.sessions == s.sessions[x := s'.sessions[x]]
             && CallsClose(s', x) && !CallsClose(s, x)
             && SM.Next(s.sessions[x], CLOSER, SM.CallClose) == Some(s'.sessions[x]))
    ensures forall id: Id :: CallsClose(s', id) && !CallsClose(s, id) ==> id == x && s'.sessions != s.sessions
    ensures forall id: Id :: CallsClose(s, id) && !CallsClose(s', id) ==>
              s'.sessions == s.sessions && SM.At(SessionAt(s, id), CLOSER).Idle?
  {
    if s.shutdown.Closing? && s'.shutdown.InClose? {
      var called := SM.Next(SessionAt(s, x), CLOSER, SM.CallClose);
      assert SM.At(called.value, CLOSER) == SM.WantClose(false);
      assert s'.sessions[x] != s.sessions[x];
    }
  }

  lemma ShutdownKept(s: State, x: Id, s': State)
    requires Inv(s) && ShutdownStep(s, x) == Some(s')
    ensures Inv(s')
  {
    assert Each(s, x);
    ShutdownChanges(s, x, s');
    forall id: Id
      ensures Each(s', id)
    {
      assert Each(s, id);
      ShutdownEach(s, x, s', id);
    }
  }

  lemma ShutdownIds(s: State, x: Id, s': State, id: Id)
    requires ShutdownStep(s, x) == Some(s') && Global(s) && IdOk(s, x) && IdOk(s, id)
    ensures IdOk(s', id)
  {
    ShutdownChanges(s, x, s');
    ShutdownSession(s, x, s');
  }

  lemma ShutdownEach(s: State, x: Id, s': State, id: Id)
    requires ShutdownStep(s, x) == Some(s') && Global(s) && IdOk(s, x) && Each(s, id)
    ensures Each(s', id)
  {
    ShutdownIds(s, x, s', id);
    ShutdownSession(s, x, s');
    assert WorkerAt(s', id) == WorkerAt(s, id);
    if SessionAt(s', id) != SessionAt(s, id) {
      ShutdownCalls(WorkerAt(s, x), SessionAt(s, x), SessionAt(s', x));
      ShutdownCallSweeps(s, x, s');
    } else {
      if CallsClose(s, id) && !CallsClose(s', id) {
        SM.CloseSilences(SessionAt(s, id), WORKER, CLOSER);
      }
      ShutdownSweeps(s, x, s', id);
    }
  }

  lemma ShutdownCalls(pc: WorkerPc, session: SM.State, after: SM.State)
    requires SessionOk(pc, false, session) && !pc.Unborn?
    requires SM.Next(session, CLOSER, SM.CallClose) == Some(after)
    ensures SessionOk(pc, true, after)
  {
    CallOpens(session, CLOSER, after);
  }

  lemma ShutdownCallSweeps(s: State, x: Id, s': State)
    requires ShutdownStep(s, x) == Some(s') && CallsClose(s', x) && !CallsClose(s, x) && Swept(s, x)
    requires s.reg.closing <==> s.shutdown.Closing? || s.shutdown.InClose? || s.shutdown.Returned?
    ensures Swept(s', x)
  {
  }

  lemma InSessionOk(pc: WorkerPc, calling: bool, session: SM.State, e: SM.Event, after: SM.State)
    requires SessionOk(pc, calling, session) && !pc.Unborn?
    requires SM.Do(session, e) == Some(after)
    requires e.Thread? ==> e.t == WORKER || e.t == CLOSER
    requires e.Thread? ==> !e.a.CallClose? && (e.a.CallQuery? ==> e.t == WORKER && pc.Serving?)
    ensures SessionOk(pc, calling, after)
  {
    SM.DoKeepsInv(session, e, after);
    match e
    case AgentWrites(_) =>
      assert forall t: SM.Tid :: SM.At(after, t) == SM.At(session, t);
    case Thread(t, a) =>
      SM.ConnectionsKept(session, t, a, after);
      SM.LocksKept(session, t, after);
      SM.StepNeverReopens(session, e, after);
      if SM.Closer(SM.At(session, t)) && !SM.Call(a) {
        SM.CloserKept(session, t, a, after);
        IdleWaits(session, t, a);
      }
      if t == WORKER && pc.Serving? {
        SM.QuerierKept(session, t, a, after);
      }
  }

  lemma IdleWaits(session: SM.State, t: SM.Tid, a: SM.Action)
    requires SM.Next(session, t, a).Some? && !SM.Call(a)
    ensures !SM.At(session, t).Idle?
  {
  }

  lemma SessionStepKept(s: State, x: Id, e: SM.Event, s': State)
    requires Inv(s) && SessionStep(s, x, e) == Some(s')
    ensures Inv(s')
  {
    assert s' == s.(sessions := s'.sessions);
    forall id: Id
      ensures Each(s', id)
    {
      assert Each(s, id);
      if id == x {
        SessionStepOwn(s, x, e, s');
      } else {
        assert SessionAt(s', id) == SessionAt(s, id);
      }
    }
  }

  lemma SessionStepOwn(s: State, x: Id, e: SM.Event, s': State)
    requires Each(s, x) && SessionStep(s, x, e) == Some(s')
    ensures Each(s', x)
  {
    InSessionOk(WorkerAt(s, x), CallsClose(s, x), s.sessions[x], e, s'.sessions[x]);
    if SM.Silenced(s.sessions[x]) {
      SM.SilencedStays(s.sessions[x], e, s'.sessions[x]);
    }
  }

  lemma DoKeepsInv(s: State, e: Event, s': State)
    requires Inv(s) && Do(s, e) == Some(s')
    ensures Inv(s')
  {
    match e
    case AcceptOk => AcceptKept(s, e, s');
    case AcceptError => AcceptKept(s, e, s');
    case AcceptorGo => AcceptorKept(s, s');
    case WorkerGo(id) => WorkerKept(s, id, s');
    case ShutdownGo(id) => ShutdownKept(s, id, s');
    case InSession(id, e) => SessionStepKept(s, id, e, s');
  }

  lemma {:induction false} ExecuteKeepsInv(s: State, schedule: seq<Event>)
    requires Inv(s)
    ensures Inv(Execute(s, schedule))
  {
    if schedule != [] {
      var before := Execute(s, schedule[..|schedule| - 1]);
      ExecuteKeepsInv(s, schedule[..|schedule| - 1]);
      var e := schedule[|schedule| - 1];
      if Do(before, e).Some? {
        DoKeepsInv(before, e, Do(before, e).value);
      }
    }
  }

  lemma InitInv(local: bool)
    ensures Inv(Init(local))
  {
    SM.InitInv(local);
    assert forall t: SM.Tid :: SM.At(SM.Init(local), t).Idle?;
    forall id: Id
      ensures Each(Init(local), id)
    {
    }
  }

  lemma Reachable(local: bool, schedule: seq<Event>) returns (s: State)
    ensures s == Execute(Init(local), schedule) && Inv(s)
  {
    InitInv(local);
    ExecuteKeepsInv(Init(local), schedule);
    s := Execute(Init(local), schedule);
  }

  // ----- what holds in every run -----

  /**
   Admission and conservation: at most 32 clients are registered, and an accepted
   connection is registered, closed, or still in the acceptor's hand.
   */
  lemma Admission(local: bool, schedule: seq<Event>, id: Id)
    ensures var s := Execute(Init(local), schedule);
            && |s.reg.clients| <= MAX_CLIENTS
            && (id < s.accepted <==> id in s.reg.clients || id in s.reg.closed || InHand(s.acceptor, id))
  {
    var s := Reachable(local, schedule);
    assert Each(s, id);
  }

  /** Once closing is set no client and no upstream is newly registered. */
  lemma ClosingFreezesMaps(s: State, e: Event, s': State)
    requires Inv(s) && s.reg.closing && Do(s, e) == Some(s')
    ensures s'.reg.closing
    ensures s'.reg.clients <= s.reg.clients && s'.reg.upstreams <= s.reg.upstreams
  {
    match e
    case AcceptorGo => AcceptorGlobal(s, s');
    case WorkerGo(id) =>
      assert Each(s, id);
      WorkerChanges(s, id, s');
    case ShutdownGo(id) => ShutdownChanges(s, id, s');
    case _ =>
  }

  /** In every run from there the flag stays, and both maps only lose members. */
  lemma {:induction false} NothingRegisteredAfterClosing(s: State, schedule: seq<Event>)
    requires Inv(s) && s.reg.closing
    ensures var s' := Execute(s, schedule);
            s'.reg.closing && s'.reg.clients <= s.reg.clients && s'.reg.upstreams <= s.reg.upstreams
  {
    if schedule != [] {
      var before := Execute(s, schedule[..|schedule| - 1]);
      NothingRegisteredAfterClosing(s, schedule[..|schedule| - 1]);
      ExecuteKeepsInv(s, schedule[..|schedule| - 1]);
      var e := schedule[|schedule| - 1];
      if Do(before, e).Some? {
        ClosingFreezesMaps(before, e, Do(before, e).value);
      }
    }
  }

  lemma NothingDelivered(s: State, e: Event, s': State, id: Id)
    requires Inv(s) && s.shutdown.Returned? && Do(s, e) == Some(s')
    ensures s'.shutdown.Returned? && SessionAt(s', id).wire.sent == SessionAt(s, id).wire.sent
  {
    assert Each(s, id);
    match e
    case AcceptorGo => AcceptorIds(s, s', id);
    case WorkerGo(w) =>
      assert Each(s, w);
      WorkerChanges(s, w, s');
      if w == id {
        WorkerSession(s, w, s');
        if SessionAt(s', w) != SessionAt(s, w) {
          SM.OnlySendingDelivers(SessionAt(s, w), WORKER, SM.CallClose, SessionAt(s', w));
        }
      }
    case InSession(x, ev) =>
      if x == id {
        SessionDeliversNothing(s, x, ev, s');
      }
    case _ =>
  }

  lemma SessionDeliversNothing(s: State, x: Id, e: SM.Event, s': State)
    requires Each(s, x) && s.reg.closing && UpstreamsLeft(s) == {} && SessionStep(s, x, e) == Some(s')
    ensures SessionAt(s', x).wire.sent == SessionAt(s, x).wire.sent
  {
    if x in s.reg.upstreams {
      SM.SilencedStays(s.sessions[x], e, s'.sessions[x]);
    } else if e.Thread? {
      assert !SM.At(s.sessions[x], e.t).Sending?;
      SM.OnlySendingDelivers(s.sessions[x], e.t, e.a, s'.sessions[x]);
    }
  }

  /**
   Once closeConnections has returned, no request byte reaches any agent: whatever the
   acceptor, the workers, the clients and the agents go on to do, nothing more is delivered.
   */
  lemma {:induction false} NoDeliveryAfterShutdown(s: State, schedule: seq<Event>, id: Id)
    requires Inv(s) && s.shutdown.Returned?
    ensures Execute(s, schedule).shutdown.Returned?
    ensures SessionAt(Execute(s, schedule), id).wire.sent == SessionAt(s, id).wire.sent
  {
    if schedule != [] {
      var before := Execute(s, schedule[..|schedule| - 1]);
      NoDeliveryAfterShutdown(s, schedule[..|schedule| - 1], id);
      ExecuteKeepsInv(s, schedule[..|schedule| - 1]);
      var e := schedule[|schedule| - 1];
      if Do(before, e).Some? {
        NothingDelivered(before, e, Do(before, e).value, id);
      }
    }
  }

  /**
   When every worker has ended and the acceptor has nothing in hand, both maps are empty,
   every accepted connection is closed, and every upstream connection ever dialled has been
   closed exactly once.
   */
  lemma AllReleased(local: bool, schedule: seq<Event>)
    ensures var s := Execute(Init(local), schedule);
            (forall id: Id :: !InHand(s.acceptor, id)) &&
            (forall id: Id :: WorkerAt(s, id).Unborn? || WorkerAt(s, id).Ended?) ==>
              && s.reg.clients == {} && s.reg.upstreams == {}
              && (forall id: Id :: id < s.accepted ==> id in s.reg.closed)
              && (forall id: Id, c :: 0 <= c < |SessionAt(s, id).link.closes| ==> SessionAt(s, id).link.closes[c] == 1)
  {
    var s := Reachable(local, schedule);
    if (forall id: Id :: !InHand(s.acceptor, id)) &&
       (forall id: Id :: WorkerAt(s, id).Unborn? || WorkerAt(s, id).Ended?)
    {
      forall id: Id
        ensures id !in s.reg.clients && id !in s.reg.upstreams && (id < s.accepted ==> id in s.reg.closed)
        ensures forall c :: 0 <= c < |SessionAt(s, id).link.closes| ==> SessionAt(s, id).link.closes[c] == 1
      {
        assert !InHand(s.acceptor, id);
        EndedIsReleased(s, id);
      }
    }
  }

  lemma EndedIsReleased(s: State, id: Id)
    requires Global(s) && Each(s, id) && !InHand(s.acceptor, id)
    requires WorkerAt(s, id).Unborn? || WorkerAt(s, id).Ended?
    ensures id !in s.reg.clients && id !in s.reg.upstreams && (id < s.accepted ==> id in s.reg.closed)
    ensures forall c :: 0 <= c < |SessionAt(s, id).link.closes| ==> SessionAt(s, id).link.closes[c] == 1
  {
    if WorkerAt(s, id).Ended? {
      assert !CallsClose(s, id);
      assert forall t: SM.Tid :: SM.At(SessionAt(s, id), t).Idle?;
      SM.AllDisposed(SessionAt(s, id));
    }
  }

  // ----- shutdown never waits for a peer -----

  /** A step that no client and no agent has a say in: locks, critical sections, closes. */
  predicate Local(s: State, e: Event) {
    match e
    case AcceptorGo => s.acceptor.InAdmit?
    case WorkerGo(id) => HoldsMu(WorkerAt(s, id))
    case ShutdownGo(_) => true
    case InSession(_, Thread(_, a)) =>
      a.LockState? || a.CheckState? || a.Publish? || a.MarkClosed? || a.CloseConn?
    case _ => false
  }

  function CloserMove(session: SM.State): SM.Event {
    match SM.At(session, CLOSER)
    case WantClose(_) =>
      if session.stateMu.Some?
      then SM.Thread(session.stateMu.value, SM.SectionEnd(SM.At(session, session.stateMu.value)))
      else SM.Thread(CLOSER, SM.LockState)
    case InClose(_) => SM.Thread(CLOSER, SM.MarkClosed)
    case _ => SM.Thread(CLOSER, SM.CloseConn)
  }

  /** The next local step that brings closeConnections closer to its end. */
  ghost function ShutdownMove(s: State): Event {
    match s.shutdown
    case WantMu =>
      if s.mu.None? || s.mu.value.Shutdown? then ShutdownGo(0)
      else if s.mu.value.Acceptor? then AcceptorGo
      else WorkerGo(s.mu.value.id)
    case Closing(clients, upstreams) =>
      if clients != {} then var c :| c in clients; ShutdownGo(c)
      else if upstreams != {} then var u :| u in upstreams; ShutdownGo(u)
      else ShutdownGo(0)
    case InClose(_, id) =>
      if SM.At(SessionAt(s, id), CLOSER).Idle? then ShutdownGo(0) else InSession(id, CloserMove(SessionAt(s, id)))
    case _ => ShutdownGo(0)
  }

  /** Steps left in a Close call of closeConnections, counting one for a lock holder ahead of it. */
  function CloseSteps(session: SM.State): nat {
    match SM.At(session, CLOSER)
    case WantClose(_) => if session.stateMu.Some? then 4 else 3
    case InClose(_) => 2
    case ClosingConn(_, _) => 1
    case _ => 0
  }

  function StepsLeft(s: State): nat {
    match s.shutdown
    case NotStarted => 0
    case WantMu => 2 + |s.reg.clients| + 8 * |s.reg.upstreams| + (if s.mu.Some? then 10 else 0)
    case Closing(clients, upstreams) => 1 + |clients| + 8 * |upstreams|
    case InClose(upstreams, id) => 2 + 8 * |upstreams| + CloseSteps(SessionAt(s, id))
    case Returned => 0
  }

  lemma CloserAdvances(session: SM.State, after: Option<SM.State>)
    requires SM.Inv(session) && SM.Closer(SM.At(session, CLOSER)) && !SM.At(session, CLOSER).Idle?
    requires after == SM.Do(session, CloserMove(session))
    ensures after.Some? && CloseSteps(after.value) < CloseSteps(session)
  {
    if SM.At(session, CLOSER).WantClose? {
      SM.StateMuIsShort(session, CLOSER);
      if session.stateMu.Some? {
        assert SM.LockOk(session, session.stateMu.value) && SM.LockOk(session, CLOSER);
        SM.SectionEndFrees(session, session.stateMu.value, CLOSER);
      }
    }
  }

  lemma WantMuAdvances(s: State)
    requires Inv(s) && s.shutdown.WantMu?
    ensures var e := ShutdownMove(s);
            Local(s, e) && Do(s, e).Some? && StepsLeft(Do(s, e).value) < StepsLeft(s)
    ensures !Do(s, ShutdownMove(s)).value.shutdown.NotStarted?
  {
    if s.mu.Some? && s.mu.value.Acceptor? {
      AcceptorReleases(s);
    } else if s.mu.Some? && s.mu.value.Worker? {
      assert Each(s, s.mu.value.id);
      WorkerReleases(s, s.mu.value.id);
    }
  }

  lemma AcceptorReleases(s: State)
    requires s.acceptor.InAdmit?
    ensures var after := AcceptorStep(s);
            && after.Some? && after.value.mu.None? && after.value.shutdown == s.shutdown
            && |after.value.reg.clients| <= |s.reg.clients| + 1 && after.value.reg.upstreams == s.reg.upstreams
  {
  }

  lemma WorkerReleases(s: State, id: Id)
    requires HoldsMu(WorkerAt(s, id))
    ensures var after := WorkerStep(s, id);
            && after.Some? && after.value.mu.None? && after.value.shutdown == s.shutdown
            && |after.value.reg.clients| <= |s.reg.clients| && |after.value.reg.upstreams| <= |s.reg.upstreams| + 1
  {
  }

  lemma ClosingAdvances(s: State)
    requires Inv(s) && s.shutdown.Closing?
    ensures var e := ShutdownMove(s);
            Local(s, e) && Do(s, e).Some? && StepsLeft(Do(s, e).value) < StepsLeft(s)
    ensures var after := Do(s, ShutdownMove(s)).value;
            !after.shutdown.NotStarted? && (after.shutdown.Returned? ==> after.mu.None?)
  {
    var e := ShutdownMove(s);
    if s.shutdown.clients == {} && s.shutdown.upstreams != {} {
      assert Each(s, e.id);
      assert SM.At(SessionAt(s, e.id), CLOSER) == SM.Idle;
      CallOpensAt(SessionAt(s, e.id));
    }
  }

  lemma CallOpensAt(session: SM.State)
    requires SM.At(session, CLOSER) == SM.Idle
    ensures var after := SM.Next(session, CLOSER, SM.CallClose);
            after.Some? && CloseSteps(after.value) <= 4
  {
  }

  lemma InCloseAdvances(s: State)
    requires Inv(s) && s.shutdown.InClose?
    ensures var e := ShutdownMove(s);
            Local(s, e) && Do(s, e).Some? && StepsLeft(Do(s, e).value) < StepsLeft(s)
    ensures var after := Do(s, ShutdownMove(s)).value;
            !after.shutdown.NotStarted? && !after.shutdown.Returned?
  {
    var id := s.shutdown.id;
    var session := SessionAt(s, id);
    assert Each(s, id);
    if !SM.At(session, CLOSER).Idle? {
      CloserAdvances(session, SM.Do(session, CloserMove(session)));
      CloserMoveIsAllowed(s, id, session);
    }
  }

  lemma CloserMoveIsAllowed(s: State, id: Id, session: SM.State)
    requires SM.Inv(session) && SM.Closer(SM.At(session, CLOSER))
    requires forall t: SM.Tid :: t != WORKER && t != CLOSER ==> SM.At(session, t).Idle?
    ensures Allowed(s, id, CloserMove(session)) && Local(s, InSession(id, CloserMove(session)))
  {
    if session.stateMu.Some? {
      assert SM.LockOk(session, session.stateMu.value);
    }
  }

  /** Every event of the schedule is local in the state it is taken in. */
  ghost predicate AllLocal(s: State, schedule: seq<Event>) {
    forall k :: 0 <= k < |schedule| ==> Local(Execute(s, schedule[..k]), schedule[k])
  }

  lemma ExecuteFirst(s: State, e: Event, rest: seq<Event>)
    requires Do(s, e).Some?
    ensures Execute(s, [e] + rest) == Execute(Do(s, e).value, rest)
  {
    if rest == [] {
      assert ([e] + rest)[..0] == [];
      assert Execute(s, []) == s;
    } else {
      var all := [e] + rest;
      assert all[..|all| - 1] == [e] + rest[..|rest| - 1];
      ExecuteFirst(s, e, rest[..|rest| - 1]);
    }
  }

  lemma AllLocalCons(s: State, e: Event, rest: seq<Event>)
    requires Local(s, e) && Do(s, e).Some? && AllLocal(Do(s, e).value, rest)
    ensures AllLocal(s, [e] + rest)
  {
    var all := [e] + rest;
    forall k | 0 <= k < |all|
      ensures Local(Execute(s, all[..k]), all[k])
    {
      if k > 0 {
        assert all[..k] == [e] + rest[..k - 1];
        ExecuteFirst(s, e, rest[..k - 1]);
      }
    }
  }

  /**
   From every reachable state in which closeConnections has started, it can run to its end
   by local steps alone: no client and no agent can hold it up, whatever they stall.
   */
  lemma ShutdownNeedsNoPeer(s: State) returns (schedule: seq<Event>)
    requires Inv(s) && !s.shutdown.NotStarted?
    ensures AllLocal(s, schedule) && Execute(s, schedule).shutdown.Returned?
    ensures s.mu == Some(Shutdown) || (s.shutdown.Returned? && s.mu.None?) ==> Execute(s, schedule).mu.None?
    decreases StepsLeft(s)
  {
    if s.shutdown.Returned? {
      schedule := [];
    } else {
      if s.shutdown.WantMu? {
        WantMuAdvances(s);
      } else if s.shutdown.Closing? {
        ClosingAdvances(s);
      } else {
        InCloseAdvances(s);
      }
      var e := ShutdownMove(s);
      var s' := Do(s, e).value;
      DoKeepsInv(s, e, s');
      var rest := ShutdownNeedsNoPeer(s');
      AllLocalCons(s, e, rest);
      ExecuteFirst(s, e, rest);
      schedule := [e] + rest;
    }
  }

  /** Whoever holds mu, local steps alone release it: no lock wait depends on a client or an agent. */
  lemma MuIsReleasedLocally(s: State) returns (schedule: seq<Event>)
    requires Inv(s)
    ensures AllLocal(s, schedule) && Execute(s, schedule).mu.None?
  {
    if s.mu.None? {
      schedule := [];
    } else if s.mu.value.Shutdown? {
      schedule := ShutdownNeedsNoPeer(s);
    } else {
      var e := if s.mu.value.Acceptor? then AcceptorGo else WorkerGo(s.mu.value.id);
      if s.mu.value.Worker? {
        assert Each(s, s.mu.value.id);
        WorkerReleases(s, s.mu.value.id);
      } else {
        AcceptorReleases(s);
      }
      ExecuteFirst(s, e, []);
      AllLocalCons(s, e, []);
      schedule := [e];
      assert [e] + [] == [e];
    }
  }

  // ----- after shutdown everything can end -----

  /** An event in which no client and no agent does anything for the bridge: no data comes or goes. */
  predicate PeerFree(e: Event) {
    match e
    case AcceptOk => false
    case InSession(_, AgentWrites(_)) => false
    case InSession(_, Thread(_, a)) =>
      && !a.CallQuery? && !a.DialOk? && !a.ReadReply?
      && (a.Write? ==> a.n == 0 && !a.ok) && (a.ReadError? ==> a.n == 0)
    case _ => true
  }

  /** It moves no byte: nothing is accepted, dialled, sent, received or answered by it. */
  lemma PeerFreeMovesNothing(s: State, e: Event, s': State, id: Id)
    requires PeerFree(e) && Do(s, e) == Some(s')
    ensures s'.accepted == s.accepted
    ensures id in s.sessions ==>
              && id in s'.sessions
              && (s.acceptor != Spawning(id) ==>
                    var (w, w') := (s.sessions[id].wire, s'.sessions[id].wire);
                    && w'.sent == w.sent && w'.output == w.output && w'.consumed == w.consumed
                    && |s'.sessions[id].link.closes| == |s.sessions[id].link.closes|)
  {
    match e
    case InSession(x, ev) =>
      if x == id && ev.Thread? {
        PeerFreeSession(s.sessions[id], ev.t, ev.a, s'.sessions[id]);
      }
    case WorkerGo(w) => PeerFreeCall(SessionAt(s, w), WORKER);
    case ShutdownGo(x) => PeerFreeCall(SessionAt(s, x), CLOSER);
    case _ =>
  }

  lemma PeerFreeSession(session: SM.State, t: SM.Tid, a: SM.Action, after: SM.State)
    requires SM.Next(session, t, a) == Some(after) && !a.DialOk? && !a.ReadReply?
    requires (a.Write? ==> a.n == 0 && !a.ok) && (a.ReadError? ==> a.n == 0)
    ensures after.wire.sent == session.wire.sent && after.wire.output == session.wire.output
    ensures after.wire.consumed == session.wire.consumed && |after.link.closes| == |session.link.closes|
  {
  }

  lemma PeerFreeCall(session: SM.State, t: SM.Tid)
    ensures var after := SM.Next(session, t, SM.CallClose);
            after.Some? ==> after.value.wire == session.wire && after.value.link == session.link
  {
  }

  predicate AllPeerFree(schedule: seq<Event>) {
    forall k :: 0 <= k < |schedule| ==> PeerFree(schedule[k])
  }

  lemma {:induction false} ExecuteAppend(s: State, a: seq<Event>, b: seq<Event>)
    ensures Execute(s, a + b) == Execute(Execute(s, a), b)
    decreases |b|
  {
    if b == [] {
      assert a + b == a;
    } else {
      assert (a + b)[..|a + b| - 1] == a + b[..|b| - 1];
      ExecuteAppend(s, a, b[..|b| - 1]);
    }
  }

  function WorkerRank(pc: WorkerPc): nat {
    match pc
    case WantRegister => 10
    case InRegister => 9
    case Serving => 8
    case WantDeregister => 7
    case InDeregister => 6
    case CallingClose => 5
    case InSessionClose => 4
    case ClosingClient => 3
    case WantForget => 2
    case InForget => 1
    case _ => 0
  }

  /** Steps left in a call when nothing succeeds any more. */
  function CallRank(pc: SM.Pc): nat {
    match pc
    case WantQuery(_) => 9
    case Checking(_) => 8
    case WantState(_) => 7
    case WantPublish(_, _) => 7
    case InState(_) => 6
    case InPublish(_, _) => 6
    case Dialing(_) => 5
    case Sending(_, _, _) => 5
    case Receiving(_, _) => 5
    case WantClose(_) => 4
    case InClose(_) => 3
    case ClosingConn(_, _) => 2
    case ClosingOrphan(_) => 2
    case Finishing => 1
    case Idle => 0
  }

  function Rank(s: State, id: Id): nat {
    20 * WorkerRank(WorkerAt(s, id)) + CallRank(SM.At(SessionAt(s, id), WORKER))
  }

  function Total(s: State, n: nat): nat {
    if n == 0 then 0 else Total(s, n - 1) + Rank(s, n - 1)
  }

  lemma {:induction false} TotalDrops(s: State, s': State, w: Id, n: nat)
    requires Rank(s', w) < Rank(s, w) && forall id: Id :: id != w ==> Rank(s', id) == Rank(s, id)
    ensures Total(s', n) <= Total(s, n) && (w < n ==> Total(s', n) < Total(s, n))
  {
    if n > 0 {
      TotalDrops(s, s', w, n - 1);
    }
  }

  /** The worker is alone in its session, so no lock keeps it waiting there. */
  lemma AloneUnblocked(session: SM.State)
    requires SM.Inv(session) && forall t: SM.Tid :: t != WORKER ==> SM.At(session, t).Idle?
    ensures SM.At(session, WORKER).WantQuery? ==> session.queryMu.None?
    ensures SM.Locked(SM.At(session, WORKER)).Some? ==> session.stateMu.None?
  {
    if session.queryMu.Some? {
      assert SM.LockOk(session, session.queryMu.value);
    }
    if session.stateMu.Some? {
      assert SM.LockOk(session, session.stateMu.value);
    }
  }

  /** One step of the call in progress, in which nothing succeeds. */
  lemma CallAdvances(session: SM.State)
    requires SM.Inv(session) && !SM.At(session, WORKER).Idle?
    requires forall t: SM.Tid :: t != WORKER ==> SM.At(session, t).Idle?
    ensures var after := SM.Next(session, WORKER, SM.GoOn(SM.At(session, WORKER)));
            after.Some? && CallRank(SM.At(after.value, WORKER)) < CallRank(SM.At(session, WORKER))
  {
    AloneUnblocked(session);
    assert SM.ThreadOk(session.local, session.link, SM.At(session, WORKER));
    SM.GoOnEnabled(session, WORKER);
    GoOnDescends(session, SM.Next(session, WORKER, SM.GoOn(SM.At(session, WORKER))).value);
  }

  lemma GoOnDescends(session: SM.State, after: SM.State)
    requires !SM.At(session, WORKER).Idle?
    requires SM.Next(session, WORKER, SM.GoOn(SM.At(session, WORKER))) == Some(after)
    ensures CallRank(SM.At(after, WORKER)) < CallRank(SM.At(session, WORKER))
  {
  }

  predicate Unfinished(s: State, id: Id) {
    !WorkerAt(s, id).Unborn? && !WorkerAt(s, id).Ended?
  }

  /** Shutdown and acceptor are done; only workers go on. */
  ghost predicate Draining(s: State) {
    Inv(s) && s.shutdown.Returned? && s.acceptor.AcceptorDone?
  }

  /** The worker that moves next, and how: whoever holds mu first. */
  function Mover(s: State, id: Id): Id {
    if s.mu.Some? && s.mu.value.Worker? then s.mu.value.id else id
  }

  function DrainMove(s: State, w: Id): Event {
    var at := SM.At(SessionAt(s, w), WORKER);
    if at.Idle? then WorkerGo(w) else InSession(w, SM.Thread(WORKER, SM.GoOn(at)))
  }

  lemma DrainCall(s: State, w: Id)
    requires Draining(s) && !SM.At(SessionAt(s, w), WORKER).Idle?
    ensures var s' := Do(s, DrainMove(s, w));
            && PeerFree(DrainMove(s, w)) && s'.Some? && Rank(s'.value, w) < Rank(s, w)
            && s'.value == s.(sessions := s'.value.sessions)
            && forall id: Id :: id != w ==> SessionAt(s'.value, id) == SessionAt(s, id)
  {
    assert Each(s, w);
    var session := SessionAt(s, w);
    assert !CallsClose(s, w);
    assert forall t: SM.Tid :: t != WORKER ==> SM.At(session, t).Idle?;
    CallAdvances(session);
  }

  lemma DrainStep(s: State, w: Id)
    requires IdOk(s, w) && Unfinished(s, w)
    requires WorkerInSession(WorkerAt(s, w), SessionAt(s, w)) && SM.At(SessionAt(s, w), WORKER).Idle?
    requires s.mu.None? || s.mu == Some(Worker(w))
    ensures var s' := WorkerStep(s, w);
            s'.Some? && Rank(s'.value, w) < Rank(s, w)
  {
  }

  lemma DrainGo(s: State, w: Id) returns (s': State)
    requires Draining(s) && Unfinished(s, w) && SM.At(SessionAt(s, w), WORKER).Idle?
    requires s.mu.None? || s.mu == Some(Worker(w))
    ensures WorkerStep(s, w) == Some(s') && Rank(s', w) < Rank(s, w)
    ensures s'.accepted == s.accepted && s'.acceptor == s.acceptor && s'.shutdown == s.shutdown
    ensures forall o: Id :: o != w ==> Rank(s', o) == Rank(s, o)
  {
    assert Each(s, w);
    DrainStep(s, w);
    s' := WorkerStep(s, w).value;
    WorkerChanges(s, w, s');
    forall o: Id | o != w
      ensures Rank(s', o) == Rank(s, o)
    {
      assert Each(s, o);
      WorkerOthers(s, w, s', o);
    }
  }

  lemma DrainAdvances(s: State, id: Id) returns (e: Event, s': State)
    requires Draining(s) && Unfinished(s, id)
    ensures PeerFree(e) && Do(s, e) == Some(s') && Draining(s')
    ensures s'.accepted == s.accepted && Total(s', s.accepted) < Total(s, s.accepted)
  {
    var w := Mover(s, id);
    assert Each(s, w) && Each(s, id);
    e := DrainMove(s, w);
    if SM.At(SessionAt(s, w), WORKER).Idle? {
      s' := DrainGo(s, w);
    } else {
      DrainCall(s, w);
      s' := Do(s, e).value;
    }
    DoKeepsInv(s, e, s');
    TotalDrops(s, s', w, s.accepted);
  }

  /** With shutdown and acceptor done, every worker can come to its end though no peer moves. */
  lemma WorkersEnd(s: State) returns (schedule: seq<Event>)
    requires Draining(s)
    ensures AllPeerFree(schedule) && Draining(Execute(s, schedule))
    ensures forall id: Id :: !Unfinished(Execute(s, schedule), id)
    decreases Total(s, s.accepted)
  {
    if exists id: Id :: Unfinished(s, id) {
      var id: Id :| Unfinished(s, id);
      var e, s' := DrainAdvances(s, id);
      var rest := WorkersEnd(s');
      ExecuteFirst(s, e, rest);
      schedule := [e] + rest;
    } else {
      schedule := [];
    }
  }

  /** After shutdown the acceptor can come to its end: what it has in hand, then an error from Accept. */
  lemma AcceptorEnds(s: State) returns (schedule: seq<Event>)
    requires Inv(s) && s.shutdown.Returned?
    ensures AllPeerFree(schedule) && Draining(Execute(s, schedule))
    decreases match s.acceptor
              case WantAdmit(_) => if s.mu.Some? then 5 else 4
              case InAdmit(_) => 3
              case Accepting => 1
              case AcceptorDone => 0
              case _ => 2
  {
    if s.acceptor.AcceptorDone? {
      schedule := [];
    } else {
      var e := if s.acceptor.Accepting? then AcceptError
               else if s.acceptor.WantAdmit? && s.mu.Some? then WorkerGo(s.mu.value.id)
               else AcceptorGo;
      if s.acceptor.WantAdmit? && s.mu.Some? {
        assert Each(s, s.mu.value.id);
        WorkerReleases(s, s.mu.value.id);
        WorkerChanges(s, s.mu.value.id, WorkerStep(s, s.mu.value.id).value);
      }
      var s' := Do(s, e).value;
      DoKeepsInv(s, e, s');
      var rest := AcceptorEnds(s');
      ExecuteFirst(s, e, rest);
      schedule := [e] + rest;
    }
  }

  /** Nothing is registered, and every connection of either side is closed, the upstream ones once. */
  ghost predicate Released(s: State) {
    && s.shutdown.Returned? && s.acceptor.AcceptorDone? && s.reg.clients == {} && s.reg.upstreams == {}
    && (forall id: Id :: id < s.accepted ==> id in s.reg.closed)
    && (forall id: Id, c :: 0 <= c < |SessionAt(s, id).link.closes| ==> SessionAt(s, id).link.closes[c] == 1)
  }

  lemma DrainedIsReleased(s: State)
    requires Draining(s) && forall id: Id :: !Unfinished(s, id)
    ensures Released(s)
  {
    forall id: Id
      ensures id !in s.reg.clients && id !in s.reg.upstreams && (id < s.accepted ==> id in s.reg.closed)
      ensures forall c :: 0 <= c < |SessionAt(s, id).link.closes| ==> SessionAt(s, id).link.closes[c] == 1
    {
      assert Each(s, id) && !Unfinished(s, id);
      EndedIsReleased(s, id);
    }
  }

  /**
   From every reachable state in which closeConnections has started, the whole server can end
   and release everything, though no client sends, no agent answers, no dial is accepted and
   no byte is written: at worst every call that waits for a peer fails.
   */
  lemma ShutdownCompletes(s: State) returns (schedule: seq<Event>)
    requires Inv(s) && !s.shutdown.NotStarted?
    ensures AllPeerFree(schedule) && Released(Execute(s, schedule))
  {
    var first := ShutdownNeedsNoPeer(s);
    assert AllPeerFree(first) by {
      forall k | 0 <= k < |first|
        ensures PeerFree(first[k])
      {
        assert Local(Execute(s, first[..k]), first[k]);
      }
    }
    ExecuteKeepsInv(s, first);
    var returned := Execute(s, first);
    var second := AcceptorEnds(returned);
    ExecuteAppend(s, first, second);
    var draining := Execute(returned, second);
    var third := WorkersEnd(draining);
    ExecuteAppend(s, first + second, third);
    DrainedIsReleased(Execute(draining, third));
    schedule := first + second + third;
  }

  // ----- who is let in -----

  /**
   In every run an accepted connection is turned away only when the server is closing or
   exactly 32 clients are registered, and it is let in only when neither is the case.
   */
  lemma TurnedAwayOnlyWhenFull(local: bool, schedule: seq<Event>, e: Event, id: Id)
    ensures var s := Execute(Init(local), schedule);
            Do(s, e).Some? ==> DoorOk(s, Do(s, e).value, id)
  {
    var s := Reachable(local, schedule);
    if Do(s, e).Some? {
      assert Each(s, id);
      if e.WorkerGo? {
        assert Each(s, e.id);
        WorkerAtDoor(s, e.id, Do(s, e).value, id);
      } else if e.ShutdownGo? {
        ShutdownAtDoor(s, e.id, Do(s, e).value, id);
      } else if e.AcceptorGo? {
        AcceptorAtDoor(s, Do(s, e).value, id);
      } else {
        OthersAtDoor(s, e, Do(s, e).value, id);
      }
    }
  }

  predicate DoorOk(s: State, s': State, id: Id) {
    && (s'.acceptor == Rejecting(id) && s.acceptor != Rejecting(id) ==> s.reg.closing || |s.reg.clients| == 32)
    && (id in s'.reg.clients && id !in s.reg.clients ==> !s.reg.closing && |s.reg.clients| < 32 && id < s.accepted)
  }

  lemma AcceptorAtDoor(s: State, s': State, id: Id)
    requires AcceptorStep(s) == Some(s') && Global(s) && IdOk(s, id)
    ensures DoorOk(s, s', id)
  {
  }

  lemma WorkerAtDoor(s: State, w: Id, s': State, id: Id)
    requires WorkerStep(s, w) == Some(s') && IdOk(s, w)
    ensures DoorOk(s, s', id)
  {
    WorkerChanges(s, w, s');
  }

  lemma ShutdownAtDoor(s: State, x: Id, s': State, id: Id)
    requires ShutdownStep(s, x) == Some(s')
    ensures DoorOk(s, s', id)
  {
  }

  lemma OthersAtDoor(s: State, e: Event, s': State, id: Id)
    requires Do(s, e) == Some(s') && !e.AcceptorGo? && !e.WorkerGo? && !e.ShutdownGo?
    ensures DoorOk(s, s', id)
  {
  }

  /** The acceptor decides by these two conditions and nothing else. */
  lemma AdmissionExact(s: State, id: Id)
    requires s.acceptor == InAdmit(id)
    ensures var s' := Do(s, AcceptorGo);
            s'.Some? && s'.value.mu.None? &&
            if s.reg.closing || |s.reg.clients| >= 32 then
              s'.value.acceptor == Rejecting(id) && s'.value.reg == s.reg
            else
              && s'.value.acceptor == Spawning(id)
              && s'.value.reg == s.reg.(clients := s.reg.clients + {id})
  {
  }

  /** A worker registers its upstream session unless the server is closing. */
  lemma RegistrationExact(s: State, id: Id)
    requires WorkerAt(s, id) == InRegister
    ensures var s' := Do(s, WorkerGo(id));
            s'.Some? && s'.value.mu.None? &&
            if s.reg.closing then WorkerAt(s'.value, id) == CallingClose && s'.value.reg == s.reg
            else
              && WorkerAt(s'.value, id) == Serving
              && s'.value.reg == s.reg.(upstreams := s.reg.upstreams + {id})
  {
  }

  function Upto(n: nat): (ids: set<Id>)
    ensures |ids| == n && forall id: Id :: id in ids <==> id < n
  {
    if n == 0 then {} else Upto(n - 1) + {n - 1}
  }

  /** The first n clients are registered and served, and nobody was turned away. */
  ghost predicate Open(s: State, n: nat) {
    && s.mu.None? && s.reg == Registry(Upto(n), Upto(n), false, {}) && s.accepted == n
    && s.acceptor == Accepting && s.shutdown == NotStarted
    && forall id: Id :: WorkerAt(s, id) == if id < n then Serving else Unborn
  }

  lemma Extended(local: bool, schedule: seq<Event>, s: State, e: Event) returns (longer: seq<Event>, s': State)
    requires Execute(Init(local), schedule) == s && Do(s, e).Some?
    ensures longer == schedule + [e] && Some(s') == Do(s, e) && Execute(Init(local), longer) == s'
  {
    longer, s' := schedule + [e], Do(s, e).value;
    assert longer[..|schedule|] == schedule;
  }

  /** One more client comes, and the acceptor has the mutex. */
  lemma OneArrives(local: bool, n: nat, schedule: seq<Event>) returns (longer: seq<Event>, s': State)
    requires Open(Execute(Init(local), schedule), n)
    ensures Execute(Init(local), longer) == s' && Accepts(longer) == Accepts(schedule) + 1
    ensures s' == Execute(Init(local), schedule).(mu := Some(Acceptor), acceptor := InAdmit(n), accepted := n + 1)
  {
    var s := Execute(Init(local), schedule);
    AcceptsSnoc(schedule, AcceptOk);
    longer, s' := Extended(local, schedule, s, AcceptOk);
    AcceptsSnoc(longer, AcceptorGo);
    longer, s' := Extended(local, longer, s', AcceptorGo);
  }

  /** It is admitted. */
  lemma OneComes(local: bool, n: nat, schedule: seq<Event>) returns (longer: seq<Event>, s': State)
    requires n < 32 && Open(Execute(Init(local), schedule), n)
    ensures Execute(Init(local), longer) == s' && Accepts(longer) == Accepts(schedule) + 1
    ensures s'.mu.None? && s'.reg == Registry(Upto(n) + {n}, Upto(n), false, {}) && s'.accepted == n + 1
    ensures s'.acceptor == Accepting && s'.shutdown == NotStarted
    ensures forall id: Id :: WorkerAt(s', id) == if id < n then Serving else if id == n then WantRegister else Unborn
  {
    var s := Execute(Init(local), schedule);
    longer, s' := OneArrives(local, n, schedule);
    AdmissionExact(s', n);
    AcceptsSnoc(longer, AcceptorGo);
    longer, s' := Extended(local, longer, s', AcceptorGo);
    AcceptsSnoc(longer, AcceptorGo);
    longer, s' := Extended(local, longer, s', AcceptorGo);
    assert s'.workers == s.workers[n := WantRegister];
    assert forall id: Id :: id != n ==> WorkerAt(s', id) == WorkerAt(s, id);
  }

  /** Its worker registers its upstream session. */
  lemma OneRegisters(local: bool, n: nat, schedule: seq<Event>, s: State) returns (longer: seq<Event>, s': State)
    requires Execute(Init(local), schedule) == s && s.mu.None? && WorkerAt(s, n) == WantRegister && !s.reg.closing
    ensures Execute(Init(local), longer) == s' && Accepts(longer) == Accepts(schedule)
    ensures s'.mu.None? && s'.reg == s.reg.(upstreams := s.reg.upstreams + {n})
    ensures s' == s.(mu := None, reg := s'.reg, workers := s'.workers)
    ensures forall id: Id :: WorkerAt(s', id) == if id == n then Serving else WorkerAt(s, id)
  {
    longer, s' := Extended(local, schedule, s, WorkerGo(n));
    AcceptsSnoc(schedule, WorkerGo(n));
    AcceptsSnoc(longer, WorkerGo(n));
    longer, s' := Extended(local, longer, s', WorkerGo(n));
  }

  function Accepts(schedule: seq<Event>): nat {
    if schedule == [] then 0
    else Accepts(schedule[..|schedule| - 1]) + (if schedule[|schedule| - 1].AcceptOk? then 1 else 0)
  }

  lemma AcceptsSnoc(schedule: seq<Event>, e: Event)
    ensures Accepts(schedule + [e]) == Accepts(schedule) + (if e.AcceptOk? then 1 else 0)
  {
    assert (schedule + [e])[..|schedule|] == schedule;
  }

  /** Up to 32 clients that come are all let in, registered on both sides, and served. */
  lemma {:induction false} AllAreLetIn(local: bool, n: nat) returns (schedule: seq<Event>)
    requires n <= 32
    ensures Accepts(schedule) == n
    ensures var s := Execute(Init(local), schedule);
            && |s.reg.clients| == n && |s.reg.upstreams| == n && s.reg.closed == {} && !s.reg.closing
            && s.accepted == n && Open(s, n)
  {
    if n == 0 {
      schedule := [];
      assert Execute(Init(local), schedule) == Init(local);
    } else {
      schedule := AllAreLetIn(local, n - 1);
      var s;
      schedule, s := OneComes(local, n - 1, schedule);
      schedule, s := OneRegisters(local, n - 1, schedule, s);
      assert Upto(n) == Upto(n - 1) + {n - 1};
    }
  }

  /** What a serving worker and its agent can do inside the session. */
  predicate Served(e: SM.Event) {
    match e
    case AgentWrites(_) => true
    case Thread(t, a) => t == WORKER && !a.CallClose?
  }

  function Within(id: Id, events: seq<SM.Event>): (within: seq<Event>)
    ensures |within| == |events| && forall k :: 0 <= k < |events| ==> within[k] == InSession(id, events[k])
  {
    if events == [] then [] else Within(id, events[..|events| - 1]) + [InSession(id, events[|events| - 1])]
  }

  /** While a worker serves, its session can run through everything that one goroutine can query. */
  lemma {:induction false} ServingRunsSession(s: State, id: Id, events: seq<SM.Event>)
    requires id in s.sessions && WorkerAt(s, id) == Serving
    requires forall k :: 0 <= k < |events| ==> Served(events[k])
    ensures var s' := Execute(s, Within(id, events));
            s' == s.(sessions := s.sessions[id := SM.Execute(s.sessions[id], events)])
    decreases |events|
  {
    if events == [] {
      assert s.sessions[id := s.sessions[id]] == s.sessions;
    } else {
      var front := events[..|events| - 1];
      ServingRunsSession(s, id, front);
      assert Within(id, events)[..|events| - 1] == Within(id, front);
      var before := s.(sessions := s.sessions[id := SM.Execute(s.sessions[id], front)]);
      assert before.sessions[id := SM.Execute(s.sessions[id], events)]
          == s.sessions[id := SM.Execute(s.sessions[id], events)];
    }
  }
}
