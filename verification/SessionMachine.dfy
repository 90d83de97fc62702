/**
 `Session` of openssh/agent.go under every interleaving of any number of goroutines that
 call `Query` and `Close`. A step is what one goroutine does between two points where
 another can run: a lock, an unlock or one I/O call. Both mutexes are explicit.
 A schedule is any sequence of events; an event that is not enabled does nothing.
 */
module SessionMachine {
  import opened Bytes
  import opened Frames

  type Tid = nat
  type ConnId = nat

  /** The result of a query whose request passed validation. */
  datatype Outcome = Answered(request: bytes, reply: bytes) | Failed(request: bytes)

  /** Where a goroutine is. `Want` is before a lock, `In` is inside stateMu. */
  datatype Pc =
    | Idle
    | WantQuery(req: bytes)
    | Checking(req: bytes)
    | WantState(req: bytes)
    | InState(req: bytes)
    | Dialing(req: bytes)
    | WantPublish(req: bytes, c: ConnId)
    | InPublish(req: bytes, c: ConnId)
    | ClosingOrphan(c: ConnId)
    | Sending(req: bytes, c: ConnId, off: nat)
    | Receiving(req: bytes, c: ConnId)
    | Finishing
    | WantClose(inQuery: bool)
    | InClose(inQuery: bool)
    | ClosingConn(inQuery: bool, c: ConnId)

  /** The fields conn and closed, with counts of dial attempts and of Close calls per connection. */
  datatype Link = Link(conn: Option<ConnId>, closed: bool, dials: nat, closes: seq<nat>)

  /** Bytes delivered to the agent, bytes it wrote, bytes read of those, and query outcomes. */
  datatype Wire = Wire(sent: bytes, output: bytes, consumed: nat, log: seq<Outcome>)

  datatype State = State(
    local: bool,
    queryMu: Option<Tid>,
    stateMu: Option<Tid>,
    link: Link,
    wire: Wire,
    pcs: map<Tid, Pc>)

  function Init(local: bool): State {
    State(local, None, None, Link(None, false, 0, []), Wire([], [], 0, []), map[])
  }

  function At(s: State, t: Tid): Pc {
    if t in s.pcs then s.pcs[t] else Idle
  }

  function Move(s: State, t: Tid, pc: Pc): State {
    s.(pcs := s.pcs[t := pc])
  }

  /** A query that fails is recorded; `pc` is where its goroutine goes on. */
  function Fail(s: State, t: Tid, req: bytes, pc: Pc): State {
    Move(s, t, pc).(wire := s.wire.(log := s.wire.log + [Failed(req)]))
  }

  // ----- the steps -----

  datatype Action =
    | CallQuery(req: bytes)
    | CallClose
    | LockQuery
    | Validate
    | LockState
    | CheckState
    | DialOk
    | DialError
    | Publish
    | CloseOrphan
    | Write(n: nat, ok: bool)
    | ReadReply(n: nat)
    | ReadError(n: nat)
    | UnlockQuery
    | MarkClosed
    | CloseConn

  /** agent.go:72 */
  function LockQueryStep(s: State, t: Tid): Option<State> {
    if At(s, t).WantQuery? && s.queryMu.None?
    then Some(Move(s, t, Checking(At(s, t).req)).(queryMu := Some(t)))
    else None
  }

  /** agent.go:74-79 */
  function ValidateStep(s: State, t: Tid): Option<State> {
    if !At(s, t).Checking? then None else
      var req := At(s, t).req;
      if !ValidRequest(req) then Some(Move(s, t, Finishing))
      else if !s.local then Some(Fail(s, t, req, Finishing))
      else Some(Move(s, t, WantState(req)))
  }

  function Locked(pc: Pc): Option<Pc> {
    match pc
    case WantState(req) => Some(InState(req))
    case WantPublish(req, c) => Some(InPublish(req, c))
    case WantClose(q) => Some(InClose(q))
    case _ => None
  }

  /** agent.go:80, 96, 114 */
  function LockStateStep(s: State, t: Tid): Option<State> {
    var pc := Locked(At(s, t));
    if pc.Some? && s.stateMu.None? then Some(Move(s, t, pc.value).(stateMu := Some(t))) else None
  }

  /** agent.go:81-88; the window before the dial opens here */
  function CheckStateStep(s: State, t: Tid): Option<State> {
    if !At(s, t).InState? then None else
      var req := At(s, t).req;
      var free := s.(stateMu := None);
      if s.link.closed then Some(Fail(free, t, req, Finishing))
      else if s.link.conn.None? then
        Some(Move(free, t, Dialing(req)).(link := s.link.(dials := s.link.dials + 1)))
      else Some(Move(free, t, Sending(req, s.link.conn.value, 0)))
  }

  /** agent.go:90, the dial succeeds, possibly after Close cancelled its context */
  function DialOkStep(s: State, t: Tid): Option<State> {
    if !At(s, t).Dialing? then None
    else Some(Move(s, t, WantPublish(At(s, t).req, |s.link.closes|)).(link := s.link.(closes := s.link.closes + [0])))
  }

  /** agent.go:92-94 */
  function DialErrorStep(s: State, t: Tid): Option<State> {
    if !At(s, t).Dialing? then None else Some(Fail(s, t, At(s, t).req, WantClose(true)))
  }

  /** agent.go:97-103 */
  function PublishStep(s: State, t: Tid): Option<State> {
    if !At(s, t).InPublish? then None else
      var (req, c) := (At(s, t).req, At(s, t).c);
      var free := s.(stateMu := None);
      if s.link.closed then Some(Fail(free, t, req, ClosingOrphan(c)))
      else Some(Move(free, t, Sending(req, c, 0)).(link := s.link.(conn := Some(c))))
  }

  function Closed(link: Link, c: ConnId): Link {
    if c < |link.closes| then link.(closes := link.closes[c := link.closes[c] + 1]) else link
  }

  /** agent.go:99 */
  function CloseOrphanStep(s: State, t: Tid): Option<State> {
    if !At(s, t).ClosingOrphan? then None
    else Some(Move(s, t, Finishing).(link := Closed(s.link, At(s, t).c)))
  }

  /** One conn.Write of agent.go:181-190: n bytes reach the agent, then success or an error. */
  function WriteStep(s: State, t: Tid, n: nat, ok: bool): Option<State> {
    if !At(s, t).Sending? then None else
      var (req, c, off) := (At(s, t).req, At(s, t).c, At(s, t).off);
      if off + n > |req| || (ok && n == 0) || (n > 0 && !(c < |s.link.closes| && s.link.closes[c] == 0)) then None else
        var w := s.(wire := s.wire.(sent := s.wire.sent + req[off..off + n]));
        if !ok then Some(Fail(w, t, req, WantClose(true)))
        else if off + n == |req| then Some(Move(w, t, Receiving(req, c)))
        else Some(Move(w, t, Sending(req, c, off + n)))
  }

  /** agent.go:196-212 succeeds: the next n bytes of the agent are a valid reply. */
  function ReadReplyStep(s: State, t: Tid, n: nat): Option<State> {
    if !At(s, t).Receiving? || s.wire.consumed + n > |s.wire.output| then None else
      var reply := s.wire.output[s.wire.consumed..s.wire.consumed + n];
      if !ValidResponse(reply) then None
      else Some(Move(s, t, Finishing).(wire := s.wire.(
                  consumed := s.wire.consumed + n, log := s.wire.log + [Answered(At(s, t).req, reply)])))
  }

  /** agent.go:196-211 fails after consuming n bytes. */
  function ReadErrorStep(s: State, t: Tid, n: nat): Option<State> {
    if !At(s, t).Receiving? || s.wire.consumed + n > |s.wire.output| then None
    else Some(Fail(s.(wire := s.wire.(consumed := s.wire.consumed + n)), t, At(s, t).req, WantClose(true)))
  }

  /** The deferred unlock of agent.go:73 */
  function UnlockQueryStep(s: State, t: Tid): Option<State> {
    if At(s, t).Finishing? then Some(Move(s, t, Idle).(queryMu := None)) else None
  }

  function AfterClose(inQuery: bool): Pc {
    if inQuery then Finishing else Idle
  }

  /** agent.go:115-123; the window before conn.Close opens here */
  function MarkClosedStep(s: State, t: Tid): Option<State> {
    if !At(s, t).InClose? then None else
      var q := At(s, t).inQuery;
      if s.link.closed then Some(Move(s.(stateMu := None), t, AfterClose(q)))
      else
        var free := s.(stateMu := None, link := s.link.(closed := true, conn := None));
        if s.link.conn.Some? then Some(Move(free, t, ClosingConn(q, s.link.conn.value)))
        else Some(Move(free, t, AfterClose(q)))
  }

  /** agent.go:125 */
  function CloseConnStep(s: State, t: Tid): Option<State> {
    if !At(s, t).ClosingConn? then None
    else Some(Move(s, t, AfterClose(At(s, t).inQuery)).(link := Closed(s.link, At(s, t).c)))
  }

  /** The state after goroutine t takes the step a, None when it cannot. */
  function Next(s: State, t: Tid, a: Action): Option<State> {
    match a
    case CallQuery(req) => if At(s, t).Idle? then Some(Move(s, t, WantQuery(req))) else None
    case CallClose => if At(s, t).Idle? then Some(Move(s, t, WantClose(false))) else None
    case LockQuery => LockQueryStep(s, t)
    case Validate => ValidateStep(s, t)
    case LockState => LockStateStep(s, t)
    case CheckState => CheckStateStep(s, t)
    case DialOk => DialOkStep(s, t)
    case DialError => DialErrorStep(s, t)
    case Publish => PublishStep(s, t)
    case CloseOrphan => CloseOrphanStep(s, t)
    case Write(n, ok) => WriteStep(s, t, n, ok)
    case ReadReply(n) => ReadReplyStep(s, t, n)
    case ReadError(n) => ReadErrorStep(s, t, n)
    case UnlockQuery => UnlockQueryStep(s, t)
    case MarkClosed => MarkClosedStep(s, t)
    case CloseConn => CloseConnStep(s, t)
  }

  datatype Event = Thread(t: Tid, a: Action) | AgentWrites(data: bytes)

  /** The agent may write at any time; goroutines step as above. */
  function Do(s: State, e: Event): Option<State> {
    match e
    case Thread(t, a) => Next(s, t, a)
    case AgentWrites(data) => Some(s.(wire := s.wire.(output := s.wire.output + data)))
  }

  function Execute(s: State, schedule: seq<Event>): State {
    if schedule == [] then s
    else
      var before := Execute(s, schedule[..|schedule| - 1]);
      var after := Do(before, schedule[|schedule| - 1]);
      if after.Some? then after.value else before
  }

  // ----- who holds what -----

  predicate InQuery(pc: Pc) {
    match pc
    case Idle => false
    case WantQuery(_) => false
    case WantClose(q) => q
    case InClose(q) => q
    case ClosingConn(q, _) => q
    case _ => true
  }

  predicate InCritical(pc: Pc) {
    pc.InState? || pc.InPublish? || pc.InClose?
  }

  /** The goroutine is the one that must close a connection no one else can reach. */
  predicate Owns(pc: Pc) {
    pc.WantPublish? || pc.InPublish? || pc.ClosingOrphan? || pc.ClosingConn?
  }

  predicate Exchanging(pc: Pc) {
    pc.Sending? || pc.Receiving?
  }

  predicate Retiring(pc: Pc) {
    pc == WantClose(true) || pc == InClose(true)
  }

  /** A query between its dial and the moment the session has a connection or is closed. */
  predicate Unsettled(pc: Pc) {
    pc.Dialing? || pc.WantPublish? || pc.InPublish? || Retiring(pc)
  }

  function Holder(s: State): Pc {
    if s.queryMu.Some? then At(s, s.queryMu.value) else Idle
  }

  predicate LockOk(s: State, t: Tid) {
    && (InQuery(At(s, t)) <==> s.queryMu == Some(t))
    && (InCritical(At(s, t)) <==> s.stateMu == Some(t))
  }

  ghost predicate Locks(s: State) {
    forall t: Tid :: LockOk(s, t)
  }

  predicate ThreadOk(local: bool, link: Link, pc: Pc) {
    match pc
    case WantState(req) => local && ValidRequest(req)
    case InState(req) => local && ValidRequest(req)
    case Dialing(req) => local && ValidRequest(req) && link.dials == 1 && link.closes == []
    case WantPublish(req, c) => local && ValidRequest(req) && c == 0 && link.closes == [0] && link.conn.None?
    case InPublish(req, c) => local && ValidRequest(req) && c == 0 && link.closes == [0] && link.conn.None?
    case ClosingOrphan(c) => c == 0 && link.closes == [0] && link.closed
    case Sending(req, c, off) =>
      local && ValidRequest(req) && off < |req| && c == 0 && |link.closes| == 1 && (link.closed || link.conn == Some(0))
    case Receiving(req, c) =>
      local && ValidRequest(req) && c == 0 && |link.closes| == 1 && (link.closed || link.conn == Some(0))
    case ClosingConn(_, c) => c == 0 && link.closes == [0] && link.closed
    case _ => true
  }

  predicate LinkOk(link: Link, holder: Pc) {
    && link.dials <= 1 && |link.closes| <= link.dials
    && (|link.closes| == 1 ==> link.closes[0] <= 1)
    && (link.conn.Some? ==> !link.closed && link.conn == Some(0) && link.closes == [0])
    && (link.dials == 1 && !link.closed && link.conn.None? ==> Unsettled(holder))
  }

  ghost predicate OneOwner(s: State) {
    && (forall t: Tid, u: Tid :: Owns(At(s, t)) && Owns(At(s, u)) ==> t == u)
    && (s.link.closes == [0] ==> s.link.conn.Some? || exists t: Tid :: Owns(At(s, t)))
  }

  ghost predicate Connections(s: State) {
    && LinkOk(s.link, Holder(s))
    && (forall t: Tid :: ThreadOk(s.local, s.link, At(s, t)))
    && OneOwner(s)
  }

  // ----- every step keeps the invariant -----

  /** Only the stepping goroutine moves, and each lock follows its program counter. */
  predicate MutexStep(held: bool, held': bool, mu: Option<Tid>, mu': Option<Tid>, t: Tid) {
    && (held == held' ==> mu' == mu)
    && (!held && held' ==> mu.None? && mu' == Some(t))
    && (held && !held' ==> mu'.None?)
  }

  predicate LockStep(s: State, t: Tid, s': State) {
    && s'.local == s.local
    && s'.pcs == s.pcs[t := At(s', t)]
    && MutexStep(InQuery(At(s, t)), InQuery(At(s', t)), s.queryMu, s'.queryMu, t)
    && MutexStep(InCritical(At(s, t)), InCritical(At(s', t)), s.stateMu, s'.stateMu, t)
  }

  /** The ways a step of a goroutine at `pc` changes the connection fields. */
  predicate LinkStep(pc: Pc, link: Link, link': Link) {
    || link' == link
    || (pc.InState? && link' == link.(dials := link.dials + 1))
    || (pc.Dialing? && link' == link.(closes := [0]))
    || (pc.InPublish? && !link.closed && link' == link.(conn := Some(0)))
    || (pc.InClose? && !link.closed && link' == link.(closed := true, conn := None))
    || ((pc.ClosingOrphan? || pc.ClosingConn?) && link' == link.(closes := [1]))
  }

  /** A goroutine comes to own a connection by dialling it or by taking it from the session. */
  predicate OwnerStep(pc: Pc, link: Link, pc': Pc, link': Link) {
    && (Owns(pc') ==> Owns(pc) || pc.Dialing? || link.conn.Some?)
    && (link'.closes == [0] ==> link'.conn.Some? || Owns(pc') || (link.closes == [0] && link.conn.None? && !Owns(pc)))
  }

  /** All that one step promises about the goroutine that takes it. */
  predicate StepOk(s: State, t: Tid, s': State) {
    && LockStep(s, t, s')
    && ThreadOk(s'.local, s'.link, At(s', t))
    && LinkOk(s'.link, Holder(s'))
    && LinkStep(At(s, t), s.link, s'.link)
    && OwnerStep(At(s, t), s.link, At(s', t), s'.link)
  }

  predicate Ready(s: State, t: Tid, a: Action, s': State) {
    && Next(s, t, a) == Some(s')
    && LockOk(s, t) && LinkOk(s.link, Holder(s)) && ThreadOk(s.local, s.link, At(s, t))
  }

  /** Actions grouped by the part of the code they belong to; each group is proved on its own. */
  datatype Phase = Calling | Locking | Section | Dial | Sends | Reads | Disposal

  function PhaseOf(a: Action): Phase {
    match a
    case CallQuery(_) => Calling
    case CallClose => Calling
    case Validate => Calling
    case LockQuery => Locking
    case LockState => Locking
    case UnlockQuery => Locking
    case CheckState => Section
    case Publish => Section
    case MarkClosed => Section
    case DialOk => Dial
    case DialError => Dial
    case Write(_, _) => Sends
    case ReadReply(_) => Reads
    case ReadError(_) => Reads
    case CloseOrphan => Disposal
    case CloseConn => Disposal
  }

  lemma CallingStep(s: State, t: Tid, a: Action, s': State)
    requires Ready(s, t, a, s') && PhaseOf(a) == Calling
    ensures StepOk(s, t, s')
  {
  }

  lemma LockingStep(s: State, t: Tid, a: Action, s': State)
    requires Ready(s, t, a, s') && PhaseOf(a) == Locking
    ensures StepOk(s, t, s')
  {
  }

  lemma CheckStateOk(s: State, t: Tid, s': State)
    requires Ready(s, t, CheckState, s')
    ensures StepOk(s, t, s')
  {
  }

  lemma PublishOk(s: State, t: Tid, s': State)
    requires Ready(s, t, Publish, s')
    ensures StepOk(s, t, s')
  {
  }

  lemma MarkClosedOk(s: State, t: Tid, s': State)
    requires Ready(s, t, MarkClosed, s')
    ensures StepOk(s, t, s')
  {
  }

  lemma SectionStep(s: State, t: Tid, a: Action, s': State)
    requires Ready(s, t, a, s') && PhaseOf(a) == Section
    ensures StepOk(s, t, s')
  {
    if a == CheckState {
      CheckStateOk(s, t, s');
    } else if a == Publish {
      PublishOk(s, t, s');
    } else {
      MarkClosedOk(s, t, s');
    }
  }

  lemma DialStep(s: State, t: Tid, a: Action, s': State)
    requires Ready(s, t, a, s') && PhaseOf(a) == Dial
    ensures StepOk(s, t, s')
  {
  }

  lemma SendsStep(s: State, t: Tid, a: Action, s': State)
    requires Ready(s, t, a, s') && PhaseOf(a) == Sends
    ensures StepOk(s, t, s')
  {
  }

  lemma ReadsStep(s: State, t: Tid, a: Action, s': State)
    requires Ready(s, t, a, s') && PhaseOf(a) == Reads
    ensures StepOk(s, t, s')
  {
  }

  lemma DisposalStep(s: State, t: Tid, a: Action, s': State)
    requires Ready(s, t, a, s') && PhaseOf(a) == Disposal
    ensures StepOk(s, t, s')
  {
  }

  lemma LocksKept(s: State, t: Tid, s': State)
    requires Locks(s) && LockStep(s, t, s')
    ensures Locks(s')
    ensures forall u: Tid :: u != t ==> At(s', u) == At(s, u)
  {
    assert LockOk(s, t);
    forall u: Tid
      ensures LockOk(s', u)
    {
      assert LockOk(s, u);
      if u != t { assert At(s', u) == At(s, u); }
    }
  }

  /** A step of t leaves every other goroutine u in a consistent place. */
  lemma OtherKept(s: State, t: Tid, s': State, u: Tid)
    requires u != t && StepOk(s, t, s')
    requires LockOk(s, t) && LockOk(s, u) && !(Owns(At(s, t)) && Owns(At(s, u)))
    requires ThreadOk(s.local, s.link, At(s, t)) && ThreadOk(s.local, s.link, At(s, u))
    ensures ThreadOk(s'.local, s'.link, At(s, u))
  {
  }

  lemma OneOwnerKept(s: State, t: Tid, s': State)
    requires Locks(s) && Connections(s) && StepOk(s, t, s')
    requires forall u: Tid :: u != t ==> At(s', u) == At(s, u)
    ensures OneOwner(s')
  {
    assert ThreadOk(s.local, s.link, At(s, t));
    if Owns(At(s', t)) && !Owns(At(s, t)) {
      forall u: Tid | u != t
        ensures !Owns(At(s', u))
      {
        assert ThreadOk(s.local, s.link, At(s, u));
      }
    }
    if s'.link.closes == [0] && s'.link.conn.None? && !Owns(At(s', t)) {
      var o: Tid :| Owns(At(s, o));
      assert Owns(At(s', o));
    }
  }

  lemma ConnectionsKept(s: State, t: Tid, a: Action, s': State)
    requires Locks(s) && Connections(s) && Next(s, t, a) == Some(s')
    ensures StepOk(s, t, s') && Locks(s') && Connections(s')
  {
    assert LockOk(s, t) && ThreadOk(s.local, s.link, At(s, t));
    match PhaseOf(a)
    {
    case Calling => CallingStep(s, t, a, s');
    case Locking => LockingStep(s, t, a, s');
    case Section => SectionStep(s, t, a, s');
    case Dial => DialStep(s, t, a, s');
    case Sends => SendsStep(s, t, a, s');
    case Reads => ReadsStep(s, t, a, s');
    case Disposal => DisposalStep(s, t, a, s');
    }
    LocksKept(s, t, s');
    OneOwnerKept(s, t, s');
    forall u: Tid
      ensures ThreadOk(s'.local, s'.link, At(s', u))
    {
      if u != t {
        assert LockOk(s, u) && ThreadOk(s.local, s.link, At(s, u));
        OtherKept(s, t, s', u);
      }
    }
  }

  // ----- the request and reply streams -----

  function Requests(log: seq<Outcome>): seq<bytes> {
    if log == [] then [] else
      var before := Requests(log[..|log| - 1]);
      match log[|log| - 1]
      case Answered(req, _) => before + [req]
      case Failed(_) => before
  }

  function Replies(log: seq<Outcome>): seq<bytes> {
    if log == [] then [] else
      var before := Replies(log[..|log| - 1]);
      match log[|log| - 1]
      case Answered(_, reply) => before + [reply]
      case Failed(_) => before
  }

  predicate Clean(log: seq<Outcome>) {
    forall i :: 0 <= i < |log| ==> log[i].Answered?
  }

  /** The request of the first failed query, nothing when none failed. */
  function FirstFailure(log: seq<Outcome>): bytes {
    if log == [] then [] else
      var last := log[|log| - 1];
      if Clean(log[..|log| - 1]) && last.Failed? then last.request else FirstFailure(log[..|log| - 1])
  }

  lemma LogSnoc(log: seq<Outcome>, o: Outcome)
    ensures Requests(log + [o]) == Requests(log) + (if o.Answered? then [o.request] else [])
    ensures Replies(log + [o]) == Replies(log) + (if o.Answered? then [o.reply] else [])
    ensures Clean(log + [o]) == (Clean(log) && o.Answered?)
    ensures FirstFailure(log + [o]) == if Clean(log) && o.Failed? then o.request else FirstFailure(log)
  {
    var longer := log + [o];
    assert longer[..|longer| - 1] == log;
    assert longer[|longer| - 1] == o;
    assert forall i :: 0 <= i < |log| ==> longer[i] == log[i];
  }

  /** What of the current request has reached the agent. */
  function InFlight(pc: Pc): bytes {
    match pc
    case Sending(req, _, off) => if off <= |req| then req[..off] else req
    case Receiving(req, _) => req
    case _ => []
  }

  ghost predicate LogOk(log: seq<Outcome>) {
    && (forall i, j :: 0 <= i < j < |log| && log[j].Answered? ==> log[i].Answered?)
    && (forall i :: 0 <= i < |log| && log[i].Answered? ==> ValidRequest(log[i].request) && ValidResponse(log[i].reply))
  }

  predicate RepliesOk(w: Wire) {
    && w.consumed <= |w.output|
    && Concat(Replies(w.log)) <= w.output[..w.consumed]
    && (Clean(w.log) ==> Concat(Replies(w.log)) == w.output[..w.consumed])
  }

  predicate SentOk(w: Wire, inFlight: bytes) {
    var done := Concat(Requests(w.log));
    && (Clean(w.log) ==> w.sent == done + inFlight)
    && (!Clean(w.log) ==> done <= w.sent <= done + FirstFailure(w.log))
  }

  /** After a failure no exchange runs, and none can start. */
  predicate BrokenOk(local: bool, closed: bool, log: seq<Outcome>, holder: Pc) {
    Clean(log) || (!Exchanging(holder) && (closed || !local || Retiring(holder)))
  }

  ghost predicate WireOk(local: bool, closed: bool, w: Wire, holder: Pc) {
    LogOk(w.log) && RepliesOk(w) && SentOk(w, InFlight(holder)) && BrokenOk(local, closed, w.log, holder)
  }

  ghost predicate Streams(s: State) {
    WireOk(s.local, s.link.closed, s.wire, Holder(s))
  }

  ghost predicate Inv(s: State) {
    Locks(s) && Connections(s) && Streams(s)
  }

  lemma LogOkSnoc(log: seq<Outcome>, o: Outcome)
    requires LogOk(log)
    requires o.Answered? ==> Clean(log) && ValidRequest(o.request) && ValidResponse(o.reply)
    ensures LogOk(log + [o])
  {
  }

  /** Recording a failure: `part` of its request was delivered, `more` bytes were read. */
  lemma WireFails(w: Wire, req: bytes, part: bytes, more: nat, w': Wire)
    requires LogOk(w.log) && RepliesOk(w) && SentOk(w, part) && part <= req
    requires w.consumed + more <= |w.output|
    requires w' == w.(log := w.log + [Failed(req)], consumed := w.consumed + more)
    ensures LogOk(w'.log) && RepliesOk(w') && !Clean(w'.log)
    ensures forall inFlight :: SentOk(w', inFlight)
  {
    LogSnoc(w.log, Failed(req));
    LogOkSnoc(w.log, Failed(req));
    assert w.output[..w.consumed] <= w'.output[..w'.consumed];
  }

  /** Recording an answer: the whole request was delivered, the next bytes are the reply. */
  lemma WireAnswers(w: Wire, req: bytes, n: nat, w': Wire)
    requires LogOk(w.log) && RepliesOk(w) && SentOk(w, req) && Clean(w.log)
    requires w.consumed + n <= |w.output| && ValidRequest(req)
    requires ValidResponse(w.output[w.consumed..w.consumed + n])
    requires w' == w.(consumed := w.consumed + n,
                      log := w.log + [Answered(req, w.output[w.consumed..w.consumed + n])])
    ensures LogOk(w'.log) && RepliesOk(w') && SentOk(w', []) && Clean(w'.log)
  {
    var reply := w.output[w.consumed..w.consumed + n];
    LogSnoc(w.log, Answered(req, reply));
    LogOkSnoc(w.log, Answered(req, reply));
    ConcatSnoc(Requests(w.log), req);
    ConcatSnoc(Replies(w.log), reply);
    assert w.output[..w.consumed + n] == w.output[..w.consumed] + reply;
  }

  /** Delivering n more bytes of the current request. */
  lemma WireSends(w: Wire, req: bytes, off: nat, n: nat, w': Wire)
    requires off + n <= |req| && SentOk(w, req[..off]) && Clean(w.log)
    requires w' == w.(sent := w.sent + req[off..off + n])
    ensures SentOk(w', req[..off + n])
  {
    assert req[..off] + req[off..off + n] == req[..off + n];
    assert (Concat(Requests(w.log)) + req[..off]) + req[off..off + n] == Concat(Requests(w.log)) + req[..off + n];
  }

  lemma WriteFailsWire(before: Wire, req: bytes, off: nat, n: nat, after: Wire)
    requires off + n <= |req|
    requires LogOk(before.log) && RepliesOk(before) && SentOk(before, req[..off]) && Clean(before.log)
    requires after == before.(sent := before.sent + req[off..off + n], log := before.log + [Failed(req)])
    ensures LogOk(after.log) && RepliesOk(after) && !Clean(after.log) && SentOk(after, [])
  {
    var w := before.(sent := before.sent + req[off..off + n]);
    WireSends(before, req, off, n, w);
    WireFails(w, req, req[..off + n], 0, after);
  }

  lemma WriteFailsStream(s: State, t: Tid, n: nat, s': State)
    requires WriteStep(s, t, n, false) == Some(s') && At(s, t).off <= |At(s, t).req|
    requires WireOk(s.local, s.link.closed, s.wire, At(s, t))
    ensures WireOk(s'.local, s'.link.closed, s'.wire, At(s', t))
  {
    assert Exchanging(At(s, t)) && Clean(s.wire.log);
    assert At(s', t) == WantClose(true);
    WriteFailsWire(s.wire, At(s, t).req, At(s, t).off, n, s'.wire);
  }

  lemma WriteGoesOnSent(s: State, t: Tid, n: nat, s': State)
    requires WriteStep(s, t, n, true) == Some(s') && At(s, t).off <= |At(s, t).req|
    requires SentOk(s.wire, InFlight(At(s, t))) && Clean(s.wire.log)
    ensures SentOk(s'.wire, InFlight(At(s', t)))
  {
    var (req, off) := (At(s, t).req, At(s, t).off);
    WireSends(s.wire, req, off, n, s'.wire);
    assert InFlight(At(s', t)) == req[..off + n];
  }

  lemma WriteGoesOnStream(s: State, t: Tid, n: nat, s': State)
    requires WriteStep(s, t, n, true) == Some(s') && At(s, t).off <= |At(s, t).req|
    requires WireOk(s.local, s.link.closed, s.wire, At(s, t))
    ensures WireOk(s'.local, s'.link.closed, s'.wire, At(s', t))
  {
    assert Exchanging(At(s, t)) && Clean(s.wire.log);
    assert s'.wire.log == s.wire.log;
    WriteGoesOnSent(s, t, n, s');
  }

  lemma ReadReplyStream(s: State, t: Tid, n: nat, s': State)
    requires ReadReplyStep(s, t, n) == Some(s')
    requires WireOk(s.local, s.link.closed, s.wire, At(s, t)) && ValidRequest(At(s, t).req)
    ensures WireOk(s'.local, s'.link.closed, s'.wire, At(s', t))
  {
    WireAnswers(s.wire, At(s, t).req, n, s'.wire);
  }

  lemma ReadErrorStream(s: State, t: Tid, n: nat, s': State)
    requires ReadErrorStep(s, t, n) == Some(s')
    requires WireOk(s.local, s.link.closed, s.wire, At(s, t))
    ensures WireOk(s'.local, s'.link.closed, s'.wire, At(s', t))
  {
    WireFails(s.wire, At(s, t).req, At(s, t).req, n, s'.wire);
  }

  /** A step of another kind either leaves the wire alone or records a failure without I/O. */
  lemma QuietStream(s: State, t: Tid, a: Action, s': State)
    requires Next(s, t, a) == Some(s') && PhaseOf(a) != Sends && PhaseOf(a) != Reads
    ensures s'.wire == s.wire ||
            (InFlight(At(s, t)) == [] && s'.wire == s.wire.(log := s.wire.log + [Failed(At(s, t).req)]))
  {
  }

  lemma QuietBroken(s: State, t: Tid, a: Action, s': State)
    requires Next(s, t, a) == Some(s') && PhaseOf(a) != Sends && PhaseOf(a) != Reads
    requires BrokenOk(s.local, s.link.closed, s.wire.log, At(s, t))
    requires ThreadOk(s.local, s.link, At(s, t))
    ensures BrokenOk(s'.local, s'.link.closed, s'.wire.log, At(s', t))
    ensures Clean(s'.wire.log) ==> InFlight(At(s', t)) == InFlight(At(s, t))
  {
  }

  lemma QuietHolderStream(s: State, t: Tid, a: Action, s': State)
    requires Next(s, t, a) == Some(s') && PhaseOf(a) != Sends && PhaseOf(a) != Reads
    requires ThreadOk(s.local, s.link, At(s, t))
    requires WireOk(s.local, s.link.closed, s.wire, At(s, t))
    ensures WireOk(s'.local, s'.link.closed, s'.wire, At(s', t))
  {
    QuietStream(s, t, a, s');
    QuietBroken(s, t, a, s');
    if s'.wire != s.wire {
      WireFails(s.wire, At(s, t).req, [], 0, s'.wire);
    }
  }

  /** Streams survive a step of the goroutine that holds queryMu. */
  lemma HolderStream(s: State, t: Tid, a: Action, s': State)
    requires Next(s, t, a) == Some(s')
    requires ThreadOk(s.local, s.link, At(s, t))
    requires WireOk(s.local, s.link.closed, s.wire, At(s, t))
    ensures WireOk(s'.local, s'.link.closed, s'.wire, At(s', t))
  {
    if a.Write? && a.ok {
      WriteGoesOnStream(s, t, a.n, s');
    } else if a.Write? {
      WriteFailsStream(s, t, a.n, s');
    } else if a.ReadReply? {
      ReadReplyStream(s, t, a.n, s');
    } else if a.ReadError? {
      ReadErrorStream(s, t, a.n, s');
    } else {
      QuietHolderStream(s, t, a, s');
    }
  }

  /** A goroutine outside Query cannot touch the wire; it can only close the session. */
  lemma OutsiderStream(s: State, t: Tid, a: Action, s': State)
    requires Next(s, t, a) == Some(s') && !InQuery(At(s, t))
    ensures s'.wire == s.wire && (s.link.closed ==> s'.link.closed)
    ensures InQuery(At(s', t)) ==> InFlight(At(s', t)) == [] && !Exchanging(At(s', t)) && s.queryMu.None?
  {
  }

  lemma StreamsKept(s: State, t: Tid, a: Action, s': State)
    requires Inv(s) && Next(s, t, a) == Some(s') && StepOk(s, t, s')
    ensures Streams(s')
  {
    assert LockOk(s, t) && ThreadOk(s.local, s.link, At(s, t));
    if InQuery(At(s, t)) {
      HolderStream(s, t, a, s');
      if !InQuery(At(s', t)) {
        assert Holder(s') == Idle;
        assert InFlight(At(s', t)) == [];
      }
    } else {
      OutsiderStream(s, t, a, s');
      if !InQuery(At(s', t)) && s.queryMu.Some? {
        assert At(s', s.queryMu.value) == At(s, s.queryMu.value);
      }
    }
  }

  lemma StepKeepsInv(s: State, t: Tid, a: Action, s': State)
    requires Inv(s) && Next(s, t, a) == Some(s')
    ensures Inv(s')
  {
    ConnectionsKept(s, t, a, s');
    StreamsKept(s, t, a, s');
  }

  lemma DoKeepsInv(s: State, e: Event, s': State)
    requires Inv(s) && Do(s, e) == Some(s')
    ensures Inv(s')
  {
    match e
    case Thread(t, a) => StepKeepsInv(s, t, a, s');
    case AgentWrites(data) =>
      assert forall t: Tid :: At(s', t) == At(s, t);
      assert forall t: Tid :: LockOk(s, t) ==> LockOk(s', t);
      assert s'.wire.output[..s.wire.consumed] == s.wire.output[..s.wire.consumed];
  }

  lemma {:induction false} ExecuteKeepsInv(s: State, schedule: seq<Event>)
    requires Inv(s)
    ensures Inv(Execute(s, schedule))
  {
    if schedule != [] {
      var before := schedule[..|schedule| - 1];
      var e := schedule[|schedule| - 1];
      ExecuteKeepsInv(s, before);
      if Do(Execute(s, before), e).Some? {
        DoKeepsInv(Execute(s, before), e, Do(Execute(s, before), e).value);
      }
    }
  }

  lemma FreshWire(local: bool)
    ensures WireOk(local, false, Wire([], [], 0, []), Idle)
  {
    assert Concat([]) == [];
  }

  lemma FreshConnections(local: bool)
    ensures Connections(Init(local)) && Locks(Init(local))
  {
    var s := Init(local);
    assert |s.link.closes| == 0;
    assert forall t: Tid :: At(s, t) == Idle && LockOk(s, t) && !Owns(At(s, t));
  }

  lemma InitInv(local: bool)
    ensures Inv(Init(local))
  {
    FreshWire(local);
    FreshConnections(local);
  }

  lemma Reachable(local: bool, schedule: seq<Event>) returns (s: State)
    ensures s == Execute(Init(local), schedule) && Inv(s)
  {
    InitInv(local);
    ExecuteKeepsInv(Init(local), schedule);
    s := Execute(Init(local), schedule);
  }

  // ----- lifecycle -----

  ghost predicate Quiescent(s: State) {
    forall t: Tid :: At(s, t) == Idle
  }

  /**
   In every run there is at most one dial attempt, a connection is closed at most once,
   a session with a connection is not closed, and once the session is closed and no call
   is running, every connection ever dialled has been closed exactly once.
   */
  lemma Lifecycle(local: bool, schedule: seq<Event>)
    ensures var link := Execute(Init(local), schedule).link;
            && link.dials <= 1 && |link.closes| <= link.dials
            && (link.conn.Some? ==> !link.closed && link.closes == [0])
            && forall c :: 0 <= c < |link.closes| ==> link.closes[c] <= 1
    ensures var s := Execute(Init(local), schedule);
            s.link.closed && Quiescent(s) ==> forall c :: 0 <= c < |s.link.closes| ==> s.link.closes[c] == 1
  {
    var s := Reachable(local, schedule);
    LinkIsSafe(s.link, Holder(s));
    if Quiescent(s) && s.link.closed {
      AllDisposed(s);
    }
  }

  lemma LinkIsSafe(link: Link, holder: Pc)
    requires LinkOk(link, holder)
    ensures link.dials <= 1 && |link.closes| <= link.dials
    ensures link.conn.Some? ==> !link.closed && link.closes == [0]
    ensures forall c :: 0 <= c < |link.closes| ==> link.closes[c] <= 1
  {
  }

  lemma AllDisposed(s: State)
    requires Connections(s) && s.link.closed && Quiescent(s)
    ensures forall c :: 0 <= c < |s.link.closes| ==> s.link.closes[c] == 1
  {
    assert forall t: Tid :: !Owns(At(s, t));
    assert s.link.closes != [0];
    if |s.link.closes| == 1 {
      assert s.link.closes == [s.link.closes[0]];
    }
  }

  lemma StepNeverReopens(s: State, e: Event, s': State)
    requires Do(s, e) == Some(s')
    ensures s.link.closed ==> s'.link.closed
    ensures s'.link.dials > s.link.dials ==> !s.link.closed
  {
  }

  /** Closing is for good: no schedule reopens the session or dials for it again. */
  lemma {:induction false} ClosedIsAbsorbing(s: State, schedule: seq<Event>)
    requires s.link.closed
    ensures Execute(s, schedule).link.closed && Execute(s, schedule).link.dials <= s.link.dials
  {
    if schedule != [] {
      var before := Execute(s, schedule[..|schedule| - 1]);
      ClosedIsAbsorbing(s, schedule[..|schedule| - 1]);
      var e := schedule[|schedule| - 1];
      if Do(before, e).Some? {
        StepNeverReopens(before, e, Do(before, e).value);
      }
    }
  }

  // ----- pairing -----

  /** The request whose exchange may be under way: the one in flight, or the first that failed. */
  function LastStarted(s: State): bytes {
    if Clean(s.wire.log) then
      match Holder(s)
      case Sending(req, _, _) => req
      case Receiving(req, _) => req
      case _ => []
    else FirstFailure(s.wire.log)
  }

  /**
   In every run the outcomes are answers up to the first failure and failures from then on.
   The agent has received exactly the answered requests in order, then at most a prefix of
   one more, and the k-th reply is exactly the k-th frame the agent wrote.
   */
  lemma Pairing(local: bool, schedule: seq<Event>)
    ensures var w := Execute(Init(local), schedule).wire;
            var k := |Requests(w.log)|;
            && k == |Replies(w.log)| <= |w.log|
            && (forall i :: 0 <= i < k ==> w.log[i] == Answered(Requests(w.log)[i], Replies(w.log)[i]))
            && (forall i :: k <= i < |w.log| ==> w.log[i].Failed?)
            && Replies(w.log) <= Split(Responses, w.output)
    ensures var s := Execute(Init(local), schedule);
            Concat(Requests(s.wire.log)) <= s.wire.sent <= Concat(Requests(s.wire.log)) + LastStarted(s)
  {
    var s := Reachable(local, schedule);
    AnswersComeFirst(s.wire.log);
    RepliesAreValid(s.wire.log);
    assert Concat(Replies(s.wire.log)) <= s.wire.output;
    FramesAtHead(Responses, Replies(s.wire.log), s.wire.output);
    if s.queryMu.Some? {
      assert ThreadOk(s.local, s.link, At(s, s.queryMu.value));
    }
  }

  lemma {:induction false} AnswersComeFirst(log: seq<Outcome>)
    requires LogOk(log)
    ensures |Requests(log)| == |Replies(log)| <= |log|
    ensures forall i :: 0 <= i < |Requests(log)| ==> log[i] == Answered(Requests(log)[i], Replies(log)[i])
    ensures forall i :: |Requests(log)| <= i < |log| ==> log[i].Failed?
  {
    if log != [] {
      var before := log[..|log| - 1];
      AnswersComeFirst(before);
      assert log[|log| - 1].Answered? ==> forall i :: 0 <= i < |before| ==> before[i].Answered?;
    }
  }

  lemma {:induction false} RepliesAreValid(log: seq<Outcome>)
    requires LogOk(log)
    ensures forall r :: r in Replies(log) ==> ValidResponse(r)
  {
    if log != [] {
      RepliesAreValid(log[..|log| - 1]);
    }
  }

  lemma StepAfterFailure(s: State, e: Event, s': State)
    requires Inv(s) && Do(s, e) == Some(s') && !Clean(s.wire.log)
    ensures s'.wire.sent == s.wire.sent && s'.wire.consumed == s.wire.consumed
  {
    if e.Thread? {
      assert LockOk(s, e.t);
      if PhaseOf(e.a) != Sends && PhaseOf(e.a) != Reads {
        QuietStream(s, e.t, e.a, s');
      }
    }
  }

  /** After the first failed query the connection is never written to or read from again. */
  lemma {:induction false} NeverReused(s: State, schedule: seq<Event>)
    requires Inv(s) && !Clean(s.wire.log)
    ensures !Clean(Execute(s, schedule).wire.log)
    ensures Execute(s, schedule).wire.sent == s.wire.sent
    ensures Execute(s, schedule).wire.consumed == s.wire.consumed
  {
    if schedule != [] {
      var before := Execute(s, schedule[..|schedule| - 1]);
      NeverReused(s, schedule[..|schedule| - 1]);
      ExecuteKeepsInv(s, schedule[..|schedule| - 1]);
      var e := schedule[|schedule| - 1];
      if Do(before, e).Some? {
        StepAfterFailure(before, e, Do(before, e).value);
        LogGrows(before, e, Do(before, e).value);
      }
    }
  }

  lemma LogGrows(s: State, e: Event, s': State)
    requires Do(s, e) == Some(s')
    ensures s.wire.log <= s'.wire.log
    ensures !Clean(s.wire.log) ==> !Clean(s'.wire.log)
  {
    if !Clean(s.wire.log) {
      var i :| 0 <= i < |s.wire.log| && !s.wire.log[i].Answered?;
      assert s'.wire.log[i] == s.wire.log[i];
    }
  }

  // ----- locks -----

  /** The step that ends a critical section of stateMu; none of them waits or does I/O. */
  function SectionEnd(pc: Pc): Action {
    match pc
    case InState(_) => CheckState
    case InPublish(_, _) => Publish
    case _ => MarkClosed
  }

  /**
   A goroutine waiting for stateMu, a Close in particular, is never more than one critical
   section away: either it can lock now, or the holder can leave at once and then it can.
   No I/O and no other lock stands in between.
   */
  lemma StateMuIsShort(s: State, t: Tid)
    requires Inv(s) && Locked(At(s, t)).Some?
    ensures s.stateMu.None? ==> Next(s, t, LockState).Some?
    ensures s.stateMu.Some? ==>
              var u := s.stateMu.value;
              var left := Next(s, u, SectionEnd(At(s, u)));
              left.Some? && left.value.stateMu.None? && Next(left.value, t, LockState).Some?
  {
    assert LockOk(s, t);
    if s.stateMu.Some? {
      assert LockOk(s, s.stateMu.value);
      SectionEndFrees(s, s.stateMu.value, t);
    }
  }

  lemma SectionEndFrees(s: State, u: Tid, t: Tid)
    requires InCritical(At(s, u)) && u != t
    ensures var left := Next(s, u, SectionEnd(At(s, u)));
            left.Some? && left.value.stateMu.None? && At(left.value, t) == At(s, t)
  {
  }

  /** An action with which a goroutine at pc can go on once the locks it needs are free. */
  function GoOn(pc: Pc): Action {
    match pc
    case Idle => CallClose
    case WantQuery(_) => LockQuery
    case Checking(_) => Validate
    case WantState(_) => LockState
    case WantPublish(_, _) => LockState
    case WantClose(_) => LockState
    case InState(_) => CheckState
    case InPublish(_, _) => Publish
    case InClose(_) => MarkClosed
    case Dialing(_) => DialError
    case ClosingOrphan(_) => CloseOrphan
    case Sending(_, _, _) => Write(0, false)
    case Receiving(_, _) => ReadError(0)
    case Finishing => UnlockQuery
    case ClosingConn(_, _) => CloseConn
  }

  lemma GoOnEnabled(s: State, t: Tid)
    requires ThreadOk(s.local, s.link, At(s, t)) && s.wire.consumed <= |s.wire.output|
    requires At(s, t).WantQuery? ==> s.queryMu.None?
    requires Locked(At(s, t)).Some? ==> s.stateMu.None?
    ensures Next(s, t, GoOn(At(s, t))).Some?
  {
  }

  /** Who goes on when t cannot: queryMu is only ever waited for before stateMu. */
  function Unblocked(s: State, t: Tid): Tid {
    var u := if At(s, t).WantQuery? && s.queryMu.Some? then s.queryMu.value else t;
    if Locked(At(s, u)).Some? && s.stateMu.Some? then s.stateMu.value else u
  }

  /** No deadlock: while some goroutine is in a call, some goroutine in a call can step. */
  lemma DeadlockFree(s: State, t: Tid)
    requires Inv(s) && At(s, t) != Idle
    ensures var u := Unblocked(s, t);
            At(s, u) != Idle && Next(s, u, GoOn(At(s, u))).Some?
  {
    assert LockOk(s, t);
    var q := if At(s, t).WantQuery? && s.queryMu.Some? then s.queryMu.value else t;
    assert LockOk(s, q);
    var u := Unblocked(s, t);
    assert LockOk(s, u) && ThreadOk(s.local, s.link, At(s, u));
    GoOnEnabled(s, u);
  }

  /**
   What a query can see of other goroutines between two of its own steps: the wire stands
   still, and the connection fields change only by a Close.
   */
  lemma OthersOnlyClose(s: State, t: Tid, u: Tid, a: Action, s': State)
    requires Inv(s) && InQuery(At(s, t)) && u != t && Next(s, u, a) == Some(s')
    ensures s'.wire == s.wire && At(s', t) == At(s, t)
    ensures s'.link.dials == s.link.dials && |s'.link.closes| == |s.link.closes|
    ensures (s'.link.conn == s.link.conn && s'.link.closed == s.link.closed) || (s'.link.closed && s'.link.conn.None?)
  {
    assert LockOk(s, t) && LockOk(s, u);
    ConnectionsKept(s, u, a, s');
    OutsiderStream(s, u, a, s');
    assert ThreadOk(s.local, s.link, At(s, u));
  }

  // ----- two callers: one goroutine queries, another closes -----

  /** A program counter of a goroutine that only ever calls Close. */
  predicate Closer(pc: Pc) {
    pc == Idle || pc == WantClose(false) || pc == InClose(false) || (pc.ClosingConn? && !pc.inQuery)
  }

  /** A program counter of a goroutine that is in Query, or in no call. */
  predicate Querier(pc: Pc) {
    pc == Idle || !Closer(pc)
  }

  predicate Call(a: Action) {
    a.CallQuery? || a.CallClose?
  }

  /** Close returns only from a closed session. */
  lemma CloserKept(s: State, t: Tid, a: Action, s': State)
    requires Next(s, t, a) == Some(s') && Closer(At(s, t)) && !Call(a)
    requires ThreadOk(s.local, s.link, At(s, t))
    ensures Closer(At(s', t)) && (At(s', t) == Idle ==> s'.link.closed)
  {
  }

  lemma QuerierKept(s: State, t: Tid, a: Action, s': State)
    requires Next(s, t, a) == Some(s') && Querier(At(s, t)) && a != CallClose
    ensures Querier(At(s', t))
  {
  }

  /** No request byte can be delivered any more, now or later. */
  ghost predicate Silenced(s: State) {
    s.link.closed && forall t: Tid :: At(s, t).Sending? ==> |s.link.closes| == 1 && s.link.closes[0] >= 1
  }

  lemma SilencedStep(s: State, t: Tid, a: Action, s': State)
    requires Next(s, t, a) == Some(s') && s.link.closed
    requires At(s, t).Sending? ==> At(s, t).c == 0 && |s.link.closes| == 1 && s.link.closes[0] >= 1
    ensures s'.link.closed && s'.wire.sent == s.wire.sent
    ensures At(s', t).Sending? ==> At(s, t).Sending?
    ensures |s.link.closes| == 1 ==> |s'.link.closes| >= 1 && s'.link.closes[0] >= s.link.closes[0]
  {
  }

  lemma SilencedStays(s: State, e: Event, s': State)
    requires Inv(s) && Silenced(s) && Do(s, e) == Some(s')
    ensures Silenced(s') && s'.wire.sent == s.wire.sent
  {
    if e.Thread? {
      ConnectionsKept(s, e.t, e.a, s');
      LocksKept(s, e.t, s');
      assert ThreadOk(s.local, s.link, At(s, e.t));
      SilencedStep(s, e.t, e.a, s');
    }
    assert forall t: Tid :: At(s', t).Sending? ==> At(s, t).Sending?;
  }

  /** From a silenced state no schedule delivers a byte. */
  lemma {:induction false} SilencedForever(s: State, schedule: seq<Event>)
    requires Inv(s) && Silenced(s)
    ensures Silenced(Execute(s, schedule)) && Execute(s, schedule).wire.sent == s.wire.sent
  {
    if schedule != [] {
      var before := Execute(s, schedule[..|schedule| - 1]);
      SilencedForever(s, schedule[..|schedule| - 1]);
      ExecuteKeepsInv(s, schedule[..|schedule| - 1]);
      var e := schedule[|schedule| - 1];
      if Do(before, e).Some? {
        SilencedStays(before, e, Do(before, e).value);
      }
    }
  }

  /** One goroutine is in the write loop while another has yet to make the conn.Close of agent.go:125. */
  predicate LateWriter(s: State, t: Tid, u: Tid) {
    At(s, t).Sending? && At(s, u).ClosingConn?
  }

  /** In a closed session only a connection that a goroutine is about to close is still open. */
  lemma SilencedExact(s: State)
    requires Inv(s) && s.link.closed
    ensures Silenced(s) <==> forall t: Tid, u: Tid :: !LateWriter(s, t, u)
  {
    forall t: Tid, u: Tid
      ensures LateWriter(s, t, u) ==> !Silenced(s)
    {
      assert ThreadOk(s.local, s.link, At(s, u));
    }
    if forall t: Tid, u: Tid :: !LateWriter(s, t, u) {
      forall t: Tid | At(s, t).Sending?
        ensures |s.link.closes| == 1 && s.link.closes[0] >= 1
      {
        assert ThreadOk(s.local, s.link, At(s, t));
        NoOtherOwner(s, t);
      }
    }
  }

  lemma NoOtherOwner(s: State, t: Tid)
    requires Inv(s) && s.link.closed && At(s, t).Sending?
    requires forall u: Tid :: !LateWriter(s, t, u)
    ensures s.link.closes != [0]
  {
    forall u: Tid
      ensures !Owns(At(s, u))
    {
      assert LockOk(s, t) && LockOk(s, u) && !LateWriter(s, t, u);
    }
  }

  lemma ExecuteSnoc(s: State, schedule: seq<Event>, e: Event)
    ensures var before := Execute(s, schedule);
            var after := Do(before, e);
            Execute(s, schedule + [e]) == if after.Some? then after.value else before
  {
    assert (schedule + [e])[..|schedule|] == schedule;
  }

  lemma {:induction false} ExecuteAppend(s: State, a: seq<Event>, b: seq<Event>)
    ensures Execute(s, a + b) == Execute(Execute(s, a), b)
    decreases |b|
  {
    if b == [] {
      assert a + b == a;
    } else {
      assert (a + b)[..|a + b| - 1] == a + b[..|b| - 1];
      ExecuteAppend(s, a, b[..|b| - 1]);
    }
  }

  /** One write of one byte, by a goroutine in the write loop over an open connection. */
  lemma LateWriteDelivers(s: State, t: Tid, u: Tid)
    requires ThreadOk(s.local, s.link, At(s, t)) && ThreadOk(s.local, s.link, At(s, u)) && LateWriter(s, t, u)
    ensures Execute(s, [Thread(t, Write(1, true))]).wire.sent != s.wire.sent
  {
    var e := Thread(t, Write(1, true));
    var w := WriteStep(s, t, 1, true);
    assert w.Some? && |w.value.wire.sent| == |s.wire.sent| + 1;
    assert Do(s, e) == w;
    assert Execute(s, [e]) == w.value by {
      assert [e][..0] == [];
      assert Execute(s, []) == s;
    }
  }

  /**
   Exactly when a closed session can no longer deliver a request byte, for any number of
   goroutines: no schedule delivers one if and only if no goroutine is in the write loop while
   another is between marking the session closed and closing its connection.
   */
  lemma ClosedIsSilentExactly(s: State)
    requires Inv(s) && s.link.closed
    ensures (forall schedule :: Execute(s, schedule).wire.sent == s.wire.sent) <==>
            (forall t: Tid, u: Tid :: !LateWriter(s, t, u))
  {
    SilencedExact(s);
    if Silenced(s) {
      forall schedule
        ensures Execute(s, schedule).wire.sent == s.wire.sent
      {
        SilencedForever(s, schedule);
      }
    } else {
      var t: Tid, u: Tid :| LateWriter(s, t, u);
      LateWriteDelivers(s, t, u);
    }
  }

  /** When the goroutine that called Close is back, a lone querying goroutine can deliver nothing. */
  lemma CloseSilences(s: State, q: Tid, c: Tid)
    requires Inv(s) && s.link.closed && At(s, c) == Idle
    requires forall t: Tid :: t != q && t != c ==> At(s, t) == Idle
    ensures Silenced(s)
  {
    forall t: Tid, u: Tid
      ensures !LateWriter(s, t, u)
    {
    }
    SilencedExact(s);
  }

  /** One more step of a run of goroutine t. */
  lemma Extend(schedule: seq<Event>, s: State, t: Tid, a: Action) returns (longer: seq<Event>, s': State)
    requires Execute(Init(true), schedule) == s && Next(s, t, a).Some?
    ensures longer == schedule + [Thread(t, a)] && Some(s') == Next(s, t, a) && Execute(Init(true), longer) == s'
  {
    longer, s' := schedule + [Thread(t, a)], Next(s, t, a).value;
    ExecuteSnoc(Init(true), schedule, Thread(t, a));
  }

  /** Goroutine 0 at `pc` inside Query, and everyone else outside. */
  function Midway(pc: Pc, stateMu: Option<Tid>, link: Link): State {
    State(true, Some(0), stateMu, link, Wire([], [], 0, []), map[0 := pc])
  }

  /** Goroutine 0 calls Query and comes to its dial. */
  lemma QueryDials(r: bytes) returns (schedule: seq<Event>)
    requires ValidRequest(r)
    ensures Execute(Init(true), schedule) == Midway(Dialing(r), None, Link(None, false, 1, []))
  {
    var none := Link(None, false, 0, []);
    var s;
    schedule, s := Extend([], Init(true), 0, CallQuery(r));
    schedule, s := Extend(schedule, s, 0, LockQuery);
    assert s == Midway(Checking(r), None, none);
    schedule, s := Extend(schedule, s, 0, Validate);
    assert s == Midway(WantState(r), None, none);
    schedule, s := Extend(schedule, s, 0, LockState);
    assert s == Midway(InState(r), Some(0), none);
    schedule, s := Extend(schedule, s, 0, CheckState);
    assert s == Midway(Dialing(r), None, Link(None, false, 1, []));
  }

  /** It gets a connection and is about to write its request. */
  lemma QueryPublishes(r: bytes) returns (schedule: seq<Event>)
    requires ValidRequest(r)
    ensures Execute(Init(true), schedule) == Midway(Sending(r, 0, 0), None, Link(Some(0), false, 1, [0]))
  {
    schedule := QueryDials(r);
    var s := Execute(Init(true), schedule);
    schedule, s := Extend(schedule, s, 0, DialOk);
    assert s == Midway(WantPublish(r, 0), None, Link(None, false, 1, [0]));
    schedule, s := Extend(schedule, s, 0, LockState);
    assert s == Midway(InPublish(r, 0), Some(0), Link(None, false, 1, [0]));
    schedule, s := Extend(schedule, s, 0, Publish);
    assert s == Midway(Sending(r, 0, 0), None, Link(Some(0), false, 1, [0]));
  }

  lemma EntersClose(schedule: seq<Event>, s: State, t: Tid) returns (longer: seq<Event>, s': State)
    requires Execute(Init(true), schedule) == s && At(s, t) == Idle && s.stateMu.None?
    ensures Execute(Init(true), longer) == s'
    ensures s' == s.(stateMu := Some(t), pcs := s'.pcs) && At(s', t) == InClose(false)
    ensures forall u: Tid :: u != t ==> At(s', u) == At(s, u)
  {
    longer, s' := Extend(schedule, s, t, CallClose);
    longer, s' := Extend(longer, s', t, LockState);
  }

  /** Goroutine t calls Close and takes its critical section; it marks the session closed if no one has. */
  lemma Closes(schedule: seq<Event>, s: State, t: Tid) returns (longer: seq<Event>, s': State)
    requires Execute(Init(true), schedule) == s && At(s, t) == Idle && s.stateMu.None?
    requires s.link.closed ==> s.link.conn.None?
    ensures Execute(Init(true), longer) == s' && s'.wire == s.wire && s'.stateMu.None? && s'.queryMu == s.queryMu
    ensures s'.link == s.link.(closed := true, conn := None)
    ensures At(s', t) == if s.link.conn.Some? then ClosingConn(false, s.link.conn.value) else Idle
    ensures forall u: Tid :: u != t ==> At(s', u) == At(s, u)
  {
    longer, s' := EntersClose(schedule, s, t);
    longer, s' := Extend(longer, s', t, MarkClosed);
  }

  /**
   Close may return too early: goroutine 1 has marked the session closed and not yet closed
   the connection, the Close of goroutine 2 returns at once, and then the query of goroutine 0
   delivers the first byte of its request. Any valid request will do.
   */
  lemma CloseReturnsTooEarly(r: bytes) returns (schedule: seq<Event>, late: seq<Event>)
    requires ValidRequest(r)
    ensures var s := Execute(Init(true), schedule);
            s.link.closed && At(s, 2) == Idle && LateWriter(s, 0, 1) && s.wire.sent == []
    ensures late == schedule + [Thread(0, Write(1, true))] && Execute(Init(true), late).wire.sent == r[..1]
  {
    schedule := QueryPublishes(r);
    var s := Execute(Init(true), schedule);
    schedule, s := Closes(schedule, s, 1);
    schedule, s := Closes(schedule, s, 2);
    var after;
    late, after := Extend(schedule, s, 0, Write(1, true));
  }

  /**
   The window of agent.go:86-96: a Close that runs from start to end while the dial is under
   way leaves the connection to the query, which closes it and fails.
   */
  lemma LateDialIsClosed(r: bytes) returns (schedule: seq<Event>)
    requires ValidRequest(r)
    ensures var s := Execute(Init(true), schedule);
            && s.link == Link(None, true, 1, [1]) && s.wire == Wire([], [], 0, [Failed(r)])
            && s.queryMu.None? && s.stateMu.None? && At(s, 0) == Idle && At(s, 1) == Idle
  {
    schedule := QueryDials(r);
    var s := Execute(Init(true), schedule);
    schedule, s := Closes(schedule, s, 1);
    assert At(s, 0) == Dialing(r) && s.queryMu == Some(0);
    schedule, s := Extend(schedule, s, 0, DialOk);
    schedule, s := OrphanIsClosed(schedule, s, r);
  }

  lemma OrphanIsClosed(schedule: seq<Event>, s: State, r: bytes) returns (longer: seq<Event>, s': State)
    requires Execute(Init(true), schedule) == s && At(s, 0) == WantPublish(r, 0) && s.queryMu == Some(0)
    requires s.stateMu.None? && s.link == Link(None, true, 1, [0])
    ensures Execute(Init(true), longer) == s'
    ensures s'.link == Link(None, true, 1, [1]) && s'.wire == s.wire.(log := s.wire.log + [Failed(r)])
    ensures s'.queryMu.None? && s'.stateMu.None? && At(s', 0) == Idle && At(s', 1) == At(s, 1)
  {
    longer, s' := OrphanIsFound(schedule, s, r);
    longer, s' := Extend(longer, s', 0, CloseOrphan);
    longer, s' := Extend(longer, s', 0, UnlockQuery);
  }

  lemma OrphanIsFound(schedule: seq<Event>, s: State, r: bytes) returns (longer: seq<Event>, s': State)
    requires Execute(Init(true), schedule) == s && At(s, 0) == WantPublish(r, 0)
    requires s.stateMu.None? && s.link == Link(None, true, 1, [0])
    ensures Execute(Init(true), longer) == s' && s'.link == s.link && s'.queryMu == s.queryMu && s'.stateMu.None?
    ensures s'.wire == s.wire.(log := s.wire.log + [Failed(r)])
    ensures At(s', 0) == ClosingOrphan(0) && At(s', 1) == At(s, 1)
  {
    longer, s' := Extend(schedule, s, 0, LockState);
    longer, s' := Extend(longer, s', 0, Publish);
  }

  /** A write may take any part of what is left, and the loop goes on with the rest. */
  lemma AnyShortWrite(s: State, t: Tid, req: bytes, off: nat, n: nat)
    requires At(s, t) == Sending(req, 0, off) && s.link.closes == [0] && 1 <= n && off + n < |req|
    ensures var s' := Do(s, Thread(t, Write(n, true)));
            && s'.Some? && s'.value.wire == s.wire.(sent := s.wire.sent + req[off..off + n])
            && At(s'.value, t) == Sending(req, 0, off + n)
  {
  }

  // ----- a closed session refuses -----

  /** Closed, with no exchange under way. */
  ghost predicate Refusing(s: State) {
    s.link.closed && forall t: Tid :: !Exchanging(At(s, t))
  }

  lemma RefusingStep(s: State, e: Event, s': State)
    requires Refusing(s) && Do(s, e) == Some(s')
    ensures Refusing(s') && s'.wire.sent == s.wire.sent && s'.wire.consumed == s.wire.consumed
    ensures s'.link.dials == s.link.dials && Replies(s'.wire.log) == Replies(s.wire.log)
  {
    if e.Thread? {
      assert !Exchanging(At(s, e.t));
      RefusingThread(s, e.t, e.a, s');
      assert forall u: Tid :: u != e.t ==> At(s', u) == At(s, u) && !Exchanging(At(s, u));
    } else {
      assert forall u: Tid :: At(s', u) == At(s, u);
    }
  }

  lemma RefusingThread(s: State, t: Tid, a: Action, s': State)
    requires s.link.closed && !Exchanging(At(s, t)) && Next(s, t, a) == Some(s')
    ensures s'.link.closed && !Exchanging(At(s', t)) && forall u: Tid :: u != t ==> At(s', u) == At(s, u)
    ensures s'.wire.sent == s.wire.sent && s'.wire.consumed == s.wire.consumed
    ensures s'.link.dials == s.link.dials && Replies(s'.wire.log) == Replies(s.wire.log)
  {
    RefusingMoves(s, t, a, s');
    QuietStream(s, t, a, s');
    if s'.wire != s.wire {
      LogSnoc(s.wire.log, Failed(At(s, t).req));
    }
  }

  lemma RefusingMoves(s: State, t: Tid, a: Action, s': State)
    requires s.link.closed && !Exchanging(At(s, t)) && Next(s, t, a) == Some(s')
    ensures s'.link.closed && !Exchanging(At(s', t)) && s'.link.dials == s.link.dials
    ensures PhaseOf(a) != Sends && PhaseOf(a) != Reads
    ensures s'.pcs == s.pcs[t := At(s', t)]
  {
  }

  /** A closed session refuses: no schedule dials, sends, consumes or answers anything more. */
  lemma {:induction false} ClosedRefuses(s: State, schedule: seq<Event>)
    requires Refusing(s)
    ensures var s' := Execute(s, schedule);
            && Refusing(s') && s'.wire.sent == s.wire.sent && s'.wire.consumed == s.wire.consumed
            && s'.link.dials == s.link.dials && Replies(s'.wire.log) == Replies(s.wire.log)
  {
    if schedule != [] {
      var before := Execute(s, schedule[..|schedule| - 1]);
      ClosedRefuses(s, schedule[..|schedule| - 1]);
      var e := schedule[|schedule| - 1];
      if Do(before, e).Some? {
        RefusingStep(before, e, Do(before, e).value);
      }
    }
  }

  /** Only a goroutine inside the write loop delivers bytes. */
  lemma OnlySendingDelivers(s: State, t: Tid, a: Action, s': State)
    requires Next(s, t, a) == Some(s') && !At(s, t).Sending?
    ensures s'.wire.sent == s.wire.sent
  {
  }
}
