/**
 The asynchronous TCP client as a state machine. Any number of callers start requests and cancel them
 while any number of worker threads run completion handlers; every lock acquisition, lock release,
 flag access, map access and callback is one atomic step, and steps of different threads interleave
 freely. A run is a sequence of such steps from the client's initial state.
 */
module TcpClient {
  import opened Errors
  import opened Runs
  import opened Text
  import opened Streams

  /** A session object, by order of creation; request identifiers may be reused. */
  type SessionId = nat
  type RequestId = nat

  /** What is asked of the socket; a write carries bytes. */
  datatype Operation = Connect | Write(data: string) | Read

  /** A thread in one of the three roles a thread can have here. */
  datatype Agent = Worker(w: nat) | Starter(u: nat) | Canceller(c: nat)

  /** Where a thread is in one of a session's three completion handlers. */
  datatype HandlerAt =
    | Entered(op: Operation, ec: ErrorCode, buffer: string)
    | LockGuard(op: Operation)
    | ReadFlag(op: Operation)
    | UnlockGuard(op: Operation)
    | Initiate(op: Operation)

  /** Where a thread is in `OnRequestComplete`. */
  datatype CompletionAt = Shutdown | LockMap | Erase | UnlockMap | Decide | Deliver(ec: ErrorCode)

  /** Where a thread is in `EmulateLongComputationOp`. */
  datatype StartAt = StartLock | StartInsert | StartUnlock | StartConnect

  /** Where a thread is in `CancelRequest` once it has found a session. */
  datatype CancelAt = CancelLock | CancelSet | CancelSocket | CancelUnlock

  /** Where a thread is. `held` says that `OnRequestComplete` was called with the cancel guard locked. */
  datatype PC =
    | InRun
    | Exited
    | Handler(s: SessionId, hat: HandlerAt)
    | Completion(s: SessionId, held: bool, cat: CompletionAt)
    | Release(s: SessionId)
    | Return
    | Starting(s: SessionId, sat: StartAt)
    | StartDone
    | CancelWantMap(id: RequestId)
    | CancelFind(id: RequestId)
    | Cancelling(s: SessionId, at: CancelAt)
    | CancelUnmap
    | CancelDone

  /** What a session's next step waits for, as recorded by the history field `place`. */
  datatype Place = AtAgent(a: Agent) | InOperation(t: nat) | Finished

  /** One call of a session's callback. */
  datatype Delivery = Delivery(id: RequestId, response: string, ec: ErrorCode)

  /**
   A session. `peer` is everything the peer would send on its connection. The last four fields are
   history: who found it in the map, who has set its flag, its callbacks, and where it is.
   */
  datatype Session = Session(
    id: RequestId,
    request: string,
    peer: string,
    ec: ErrorCode,
    response: string,
    cancelled: bool,
    guard: Option<Agent>,
    finds: set<Agent>,
    flaggedBy: set<Agent>,
    delivered: seq<Delivery>,
    place: Place)

  /** An operation the io_context has not completed yet. */
  datatype Pending = Pending(s: SessionId, op: Operation)

  datatype Closing = NotClosing | Joining(k: nat) | Closed

  /**
   `work` is the io_context's count of outstanding work. `overlap` is history: a request was being
   started when `Close` was called, or has been started since.
   */
  datatype State = State(
    workers: nat,
    pcs: map<Agent, PC>,
    sessions: seq<Session>,
    ops: map<nat, Pending>,
    nextOp: nat,
    active: map<RequestId, SessionId>,
    mapOwner: Option<Agent>,
    work: nat,
    guardHeld: bool,
    stopped: bool,
    closing: Closing,
    overlap: bool)

  datatype Action =
    /** `EmulateLongComputationOp` is called by `u` and has made its session object. */
    | Start(u: nat, id: RequestId, duration: nat, peer: string)
    /** `CancelRequest(id)` is called by `c`. */
    | Cancel(c: nat, id: RequestId)
    /** The next step of a thread that is inside the client's code. */
    | Step(a: Agent)
    /** The io_context hands a completed operation to a worker. */
    | Dispatch(w: nat, t: nat, ec: ErrorCode, buffer: string)
    /** `run()` returns in a worker. */
    | Leave(w: nat)
    /** `Close` drops the work guard, joins the next thread, returns. */
    | DropGuard
    | Join
    | CloseReturn

  // -------------------------------------------------------------------- construction

  /** The number of threads the constructor starts: the requested one or the hardware's, as a byte. */
  function ThreadCount(requested: nat, hardware: nat): nat
    requires requested < 256
  {
    if requested != 0 then requested else hardware % 256
  }

  /** It is the number requested, unless that is zero, and the hardware's modulo 256 then. */
  lemma ThreadCountExactly(requested: nat, hardware: nat)
    requires requested < 256
    ensures requested != 0 ==> ThreadCount(requested, hardware) == requested
    ensures requested == 0 ==>
              ThreadCount(0, hardware) < 256 && exists k: nat :: hardware == 256 * k + ThreadCount(0, hardware)
  {
    assert hardware == 256 * (hardware / 256) + hardware % 256;
  }

  lemma ThreadCountIsZeroExactly(requested: nat, hardware: nat)
    requires requested < 256
    ensures ThreadCount(requested, hardware) == 0 <==> requested == 0 && exists k :: hardware == 256 * k
  {
    assert hardware == 256 * (hardware / 256) + hardware % 256;
  }

  function WorkerSet(workers: nat): set<Agent> {
    set w | 0 <= w < workers :: Worker(w)
  }

  function Init(workers: nat): State {
    State(workers, map a | a in WorkerSet(workers) :: InRun,
          [], map[], 0, map[], None, 1, true, false, NotClosing, false)
  }

  function RequestText(duration: nat): string {
    "EMULATE_LONG_CALC_OP " + Decimal(duration) + "\n"
  }

  // ------------------------------------------------------------- what a thread holds or wants

  /**
   What a thread's position says about it: whether it is inside the map's critical section; whose
   cancel guard it holds; which session it carries, that is, whose next step it decides, and whether
   that session is listed (inserted into the map and not yet past its own erase) and completing;
   which error it is about to deliver and what it has read; which session it is cancelling, and
   whether it has yet to set that flag; whether it has searched the map; and whether it is inside a
   handler, starting a request, or out of `run()`.
   */
  datatype Role = Role(
    inMap: bool,
    guards: Option<SessionId>,
    carries: Option<SessionId>,
    listed: bool,
    completing: bool,
    verdict: Option<ErrorCode>,
    got: Option<string>,
    cancels: Option<SessionId>,
    flags: Option<SessionId>,
    spent: bool,
    handling: bool,
    starting: bool,
    exited: bool)
  {
    predicate WellFormed() {
      && (cancels.Some? ==> inMap && carries.None?)
      && (flags.Some? ==> flags == cancels)
      && (verdict.Some? ==> completing && !listed)
      && (completing ==> carries.Some?)
      && (got.Some? ==> carries.Some?)
      && (carries.Some? ==> handling || starting)
    }
  }

  const IDLE := Role(false, None, None, false, false, None, None, None, None, false, false, false, false)

  function HandlerRole(s: SessionId, at: HandlerAt): Role {
    IDLE.(carries := Some(s), listed := true, handling := true,
          guards := if at.ReadFlag? || at.UnlockGuard? then Some(s) else None,
          got := if at.Entered? && at.op.Read? && at.ec == Ok then Some(at.buffer) else None)
  }

  function CompletionRole(s: SessionId, held: bool, at: CompletionAt): Role {
    IDLE.(carries := Some(s), completing := true, handling := true,
          guards := if held then Some(s) else None,
          inMap := at.Erase? || at.UnlockMap?,
          listed := at.Shutdown? || at.LockMap? || at.Erase?,
          verdict := if at.Deliver? then Some(at.ec) else None)
  }

  function StartRole(s: SessionId, at: StartAt): Role {
    IDLE.(carries := Some(s), starting := true,
          inMap := at.StartInsert? || at.StartUnlock?,
          listed := at.StartUnlock? || at.StartConnect?)
  }

  function CancelRole(s: SessionId, at: CancelAt): Role {
    IDLE.(inMap := true, cancels := Some(s), spent := true,
          guards := if at.CancelLock? then None else Some(s),
          flags := if at.CancelLock? || at.CancelSet? then Some(s) else None)
  }

  function RoleOf(pc: PC): Role {
    match pc
    case InRun => IDLE
    case Exited => IDLE.(exited := true)
    case Handler(s, at) => HandlerRole(s, at)
    case Completion(s, held, at) => CompletionRole(s, held, at)
    case Release(s) => IDLE.(guards := Some(s), handling := true)
    case Return => IDLE.(handling := true)
    case Starting(s, at) => StartRole(s, at)
    case StartDone => IDLE
    case CancelWantMap(_) => IDLE
    case CancelFind(_) => IDLE.(inMap := true)
    case Cancelling(s, at) => CancelRole(s, at)
    case CancelUnmap => IDLE.(inMap := true, spent := true)
    case CancelDone => IDLE.(spent := true)
  }

  predicate WantsMap(pc: PC) {
    || (pc.Completion? && pc.cat.LockMap?)
    || (pc.Starting? && pc.sat.StartLock?)
    || pc.CancelWantMap?
  }

  predicate WantsGuard(pc: PC) {
    || (pc.Handler? && pc.hat.LockGuard?)
    || (pc.Cancelling? && pc.at.CancelLock?)
  }

  // -------------------------------------------------------------------------- steps

  /** The step thread `a` is about to take is possible: a lock it takes is free. */
  predicate CanStep(st: State, a: Agent) {
    a in st.pcs &&
    match st.pcs[a]
    case Handler(s, at) => s < |st.sessions| && (at.LockGuard? ==> st.sessions[s].guard == None)
    case Completion(s, _, at) => s < |st.sessions| && (at.LockMap? ==> st.mapOwner == None)
    case Release(s) => s < |st.sessions|
    case Return => 0 < st.work
    case Starting(s, at) => s < |st.sessions| && (at.StartLock? ==> st.mapOwner == None)
    case CancelWantMap(_) => st.mapOwner == None
    case CancelFind(id) => id in st.active ==> st.active[id] < |st.sessions|
    case Cancelling(s, at) => s < |st.sessions| && (at.CancelLock? ==> st.sessions[s].guard == None)
    case CancelUnmap => true
    case _ => false
  }

  /** What a handler initiates: the request is written on the connection, and then the answer is read. */
  function Next(op: Operation, request: string): Operation {
    if op.Connect? then Write(request) else Read
  }

  function GoTo(st: State, a: Agent, pc: PC): State {
    st.(pcs := st.pcs[a := pc])
  }

  function Put(st: State, s: SessionId, session: Session): State
    requires s < |st.sessions|
  {
    st.(sessions := st.sessions[s := session])
  }

  /** The error the callback is given: a cancelled session that did not fail is reported aborted. */
  function Verdict(session: Session): ErrorCode {
    if session.ec == Ok && session.cancelled then Aborted else session.ec
  }

  /** An asynchronous operation is initiated; it counts as outstanding work. */
  function Launch(st: State, s: SessionId, op: Operation): State
    requires s < |st.sessions|
  {
    Put(st, s, st.sessions[s].(place := InOperation(st.nextOp)))
      .(ops := st.ops[st.nextOp := Pending(s, op)], nextOp := st.nextOp + 1, work := st.work + 1)
  }

  /** A unit of work is finished; when none is left the io_context stops for good. */
  function FinishWork(st: State): State
    requires 0 < st.work
  {
    st.(work := st.work - 1, stopped := st.stopped || st.work == 1)
  }

  function HandlerStep(st: State, a: Agent, s: SessionId, at: HandlerAt): State
    requires s < |st.sessions|
  {
    var session := st.sessions[s];
    match at
    case Entered(op, ec, buffer) =>
      if ec != Ok then
        GoTo(Put(st, s, session.(ec := ec)), a, Completion(s, false, Shutdown))
      else if op.Read? then
        GoTo(Put(st, s, session.(response := FirstLine(buffer))), a, Completion(s, false, Shutdown))
      else GoTo(st, a, Handler(s, LockGuard(op)))
    case LockGuard(op) => GoTo(Put(st, s, session.(guard := Some(a))), a, Handler(s, ReadFlag(op)))
    case ReadFlag(op) =>
      GoTo(st, a, if session.cancelled then Completion(s, true, Shutdown) else Handler(s, UnlockGuard(op)))
    case UnlockGuard(op) => GoTo(Put(st, s, session.(guard := None)), a, Handler(s, Initiate(op)))
    case Initiate(op) => GoTo(Launch(st, s, Next(op, session.request)), a, Return)
  }

  function CompletionStep(st: State, a: Agent, s: SessionId, held: bool, at: CompletionAt): State
    requires s < |st.sessions|
  {
    var session := st.sessions[s];
    match at
    case Shutdown => GoTo(st, a, Completion(s, held, LockMap))
    case LockMap => GoTo(st.(mapOwner := Some(a)), a, Completion(s, held, Erase))
    case Erase => GoTo(st.(active := st.active - {session.id}), a, Completion(s, held, UnlockMap))
    case UnlockMap => GoTo(st.(mapOwner := None), a, Completion(s, held, Decide))
    case Decide => GoTo(st, a, Completion(s, held, Deliver(Verdict(session))))
    case Deliver(ec) =>
      var call := Delivery(session.id, session.response, ec);
      GoTo(Put(st, s, session.(delivered := session.delivered + [call], place := Finished)), a,
           if held then Release(s) else Return)
  }

  function StartStep(st: State, a: Agent, s: SessionId, at: StartAt): State
    requires s < |st.sessions|
  {
    match at
    case StartLock => GoTo(st.(mapOwner := Some(a)), a, Starting(s, StartInsert))
    case StartInsert => GoTo(st.(active := st.active[st.sessions[s].id := s]), a, Starting(s, StartUnlock))
    case StartUnlock => GoTo(st.(mapOwner := None), a, Starting(s, StartConnect))
    case StartConnect => GoTo(Launch(st, s, Connect), a, StartDone)
  }

  function FindStep(st: State, a: Agent, id: RequestId): State
    requires id in st.active ==> st.active[id] < |st.sessions|
  {
    if id in st.active then
      var s := st.active[id];
      GoTo(Put(st, s, st.sessions[s].(finds := st.sessions[s].finds + {a})), a, Cancelling(s, CancelLock))
    else GoTo(st, a, CancelUnmap)
  }

  function CancelStep(st: State, a: Agent, s: SessionId, at: CancelAt): State
    requires s < |st.sessions|
  {
    var session := st.sessions[s];
    match at
    case CancelLock => GoTo(Put(st, s, session.(guard := Some(a))), a, Cancelling(s, CancelSet))
    case CancelSet =>
      GoTo(Put(st, s, session.(cancelled := true, flaggedBy := session.flaggedBy + {a})), a,
           Cancelling(s, CancelSocket))
    case CancelSocket => GoTo(st, a, Cancelling(s, CancelUnlock))
    case CancelUnlock => GoTo(Put(st, s, session.(guard := None)), a, CancelUnmap)
  }

  function Take(st: State, a: Agent): State
    requires CanStep(st, a)
  {
    match st.pcs[a]
    case Handler(s, at) => HandlerStep(st, a, s, at)
    case Completion(s, held, at) => CompletionStep(st, a, s, held, at)
    case Release(s) => GoTo(Put(st, s, st.sessions[s].(guard := None)), a, Return)
    case Return => GoTo(FinishWork(st), a, InRun)
    case Starting(s, at) => StartStep(st, a, s, at)
    case CancelWantMap(id) => GoTo(st.(mapOwner := Some(a)), a, CancelFind(id))
    case CancelFind(id) => FindStep(st, a, id)
    case Cancelling(s, at) => CancelStep(st, a, s, at)
    case CancelUnmap => GoTo(st.(mapOwner := None), a, CancelDone)
  }

  predicate Enabled(st: State, action: Action) {
    match action
    case Start(u, _, _, _) => Starter(u) !in st.pcs
    case Cancel(c, _) => Canceller(c) !in st.pcs
    case Step(a) => CanStep(st, a)
    case Dispatch(w, t, ec, buffer) =>
      && Worker(w) in st.pcs && st.pcs[Worker(w)] == InRun && !st.stopped
      && t in st.ops && st.ops[t].s < |st.sessions|
      && (st.ops[t].op.Read? && ec == Ok ==> buffer <= st.sessions[st.ops[t].s].peer && LF in buffer)
    case Leave(w) => Worker(w) in st.pcs && st.pcs[Worker(w)] == InRun && st.stopped
    case DropGuard => st.closing.NotClosing? && (st.guardHeld ==> 0 < st.work)
    case Join =>
      && st.closing.Joining? && st.closing.k < st.workers
      && Worker(st.closing.k) in st.pcs && st.pcs[Worker(st.closing.k)] == Exited
    case CloseReturn => st.closing == Joining(st.workers)
  }

  /** Some thread is between its call of `EmulateLongComputationOp` and the return from it. */
  ghost predicate SomeStarting(st: State) {
    exists a :: a in st.pcs && RoleOf(st.pcs[a]).starting
  }

  ghost function Do(st: State, action: Action): State
    requires Enabled(st, action)
  {
    match action
    case Start(u, id, duration, peer) =>
      var session := Session(id, RequestText(duration), peer, Ok, "", false, None, {}, {}, [], AtAgent(Starter(u)));
      GoTo(st.(sessions := st.sessions + [session], overlap := st.overlap || !st.closing.NotClosing?),
           Starter(u), Starting(|st.sessions|, StartLock))
    case Cancel(c, id) => GoTo(st, Canceller(c), CancelWantMap(id))
    case Step(a) => Take(st, a)
    case Dispatch(w, t, ec, buffer) =>
      var Pending(s, op) := st.ops[t];
      GoTo(Put(st, s, st.sessions[s].(place := AtAgent(Worker(w)))).(ops := st.ops - {t}),
           Worker(w), Handler(s, Entered(op, ec, buffer)))
    case Leave(w) => GoTo(st, Worker(w), Exited)
    case DropGuard =>
      (if st.guardHeld then FinishWork(st) else st)
        .(guardHeld := false, closing := Joining(0), overlap := st.overlap || SomeStarting(st))
    case Join => st.(closing := Joining(st.closing.k + 1))
    case CloseReturn => st.(closing := Closed)
  }

  // --------------------------------------------------------------------------- runs

  ghost predicate Performs(st: State, action: Action, st': State) {
    Enabled(st, action) && st' == Do(st, action)
  }

  /** Some run of a client with this many threads ends in `st`. */
  ghost predicate Reachable(workers: nat, st: State) {
    Leads(Performs, Init(workers), st)
  }
}
