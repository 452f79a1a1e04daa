/**
 What the asynchronous TCP client does for one session, over whole runs: which operations it starts, in
 which order, and how the error codes they complete with become the one its callback is given.
 */
module TcpClientOutcomes {
  import opened Errors
  import opened Runs
  import opened Text
  import Streams
  import opened TcpClient
  import opened TcpClientInvariants
  import opened TcpClientSteps
  import opened TcpClientTheorems
  import opened TcpClientCalls

  // ------------------------------------------------------------- what is seen of a session

  /** An operation has completed with this error code. */
  datatype Ended = Ended(op: Operation, ec: ErrorCode)

  /** The operation that is started for the session between two states. */
  ghost function LaunchedBy(st: State, st': State, s: SessionId): seq<Operation> {
    if st.nextOp in st'.ops && st'.ops[st.nextOp].s == s then [st'.ops[st.nextOp].op] else []
  }

  ghost function EndedBy(st: State, action: Action, s: SessionId): seq<Ended> {
    if action.Dispatch? && action.t in st.ops && st.ops[action.t].s == s
    then [Ended(st.ops[action.t].op, action.ec)] else []
  }

  ghost function Launches(s: SessionId): (State, Action, State) -> seq<Operation> {
    (st, action, st') => LaunchedBy(st, st', s)
  }

  ghost function Completions(s: SessionId): (State, Action, State) -> seq<Ended> {
    (st, action, st') => EndedBy(st, action, s)
  }

  /** The operations started for the session in the first `n` steps of a run, in order. */
  ghost function Launched(actions: seq<Action>, states: seq<State>, n: nat, s: SessionId): seq<Operation>
    requires n <= |actions| < |states|
  {
    Seen(Launches(s), actions, states, n)
  }

  /** Those completed, with the error codes they were dispatched with. */
  ghost function Ends(actions: seq<Action>, states: seq<State>, n: nat, s: SessionId): seq<Ended>
    requires n <= |actions| < |states|
  {
    Seen(Completions(s), actions, states, n)
  }

  // ---------------------------------------------------------------------- the invariant

  function Chain(request: string): seq<Operation> {
    [Connect, Write(request), Read]
  }

  /** The operations complete in order, and only the last one may have failed. */
  ghost predicate InOrder(x: Session, launched: seq<Operation>, ends: seq<Ended>) {
    && launched <= Chain(x.request) && |ends| <= |launched|
    && (forall i :: 0 <= i < |ends| ==> ends[i].op == launched[i])
    && (forall i :: 0 <= i < |ends| - 1 ==> ends[i].ec == Ok)
  }

  ghost predicate Unsettled(x: Session) {
    x.ec == Ok && x.response == ""
  }

  /** The session has taken over the last completion's error, and its answer if that was the read. */
  ghost predicate Settles(x: Session, launched: seq<Operation>, ends: seq<Ended>) {
    ends != [] && |launched| == |ends| &&
    var last := ends[|ends| - 1];
    && x.ec == last.ec
    && (last.ec == Ok && !last.op.Read? ==> x.cancelled)
    && x.response == if last == Ended(Read, Ok) then Streams.FirstLine(x.peer) else ""
  }

  /** The operation whose handler this is. */
  function HandledBy(at: HandlerAt): Ended {
    match at
    case Entered(op, ec, _) => Ended(op, ec)
    case LockGuard(op) => Ended(op, Ok)
    case ReadFlag(op) => Ended(op, Ok)
    case UnlockGuard(op) => Ended(op, Ok)
    case Initiate(op) => Ended(op, Ok)
  }

  ghost predicate TracedAt(pc: PC, x: Session, launched: seq<Operation>, ends: seq<Ended>) {
    match pc
    case Starting(_, _) => launched == [] && Unsettled(x)
    case Handler(_, at) =>
      && Unsettled(x) && |launched| == |ends| && ends != [] && ends[|ends| - 1] == HandledBy(at)
      && (!at.Entered? ==> !HandledBy(at).op.Read?)
    case Completion(_, _, _) => Settles(x, launched, ends)
    case _ => false
  }

  ghost predicate Traced(st: State, s: SessionId, launched: seq<Operation>, ends: seq<Ended>)
    requires s < |st.sessions|
  {
    var x := st.sessions[s];
    && InOrder(x, launched, ends)
    && match x.place
       case AtAgent(a) => a in st.pcs && TracedAt(st.pcs[a], x, launched, ends)
       case InOperation(t) =>
         && t in st.ops && Unsettled(x) && (forall i :: 0 <= i < |ends| ==> ends[i].ec == Ok)
         && |launched| == |ends| + 1 && st.ops[t].op == launched[|ends|]
       case Finished => Settles(x, launched, ends)
  }

  ghost predicate TracedOrNew(st: State, s: SessionId, launched: seq<Operation>, ends: seq<Ended>) {
    if s < |st.sessions| then Traced(st, s, launched, ends) else launched == [] && ends == []
  }

  // ------------------------------------------------------------------- what is not touched

  /** What the trace depends on is as it was; the flag may have been set. */
  ghost predicate Kept(x: Session, x': Session) {
    && x'.request == x.request && x'.peer == x.peer && x'.ec == x.ec && x'.response == x.response
    && x'.place == x.place && (x.cancelled ==> x'.cancelled)
  }

  ghost predicate Untouched(st: State, st': State, s: SessionId) {
    && s < |st.sessions| && s < |st'.sessions| && Kept(st.sessions[s], st'.sessions[s])
    && match st.sessions[s].place
       case AtAgent(a) => a in st.pcs ==> a in st'.pcs && st'.pcs[a] == st.pcs[a]
       case InOperation(t) => t in st.ops ==> t in st'.ops && st'.ops[t] == st.ops[t]
       case Finished => true
  }

  lemma UntouchedTraced(st: State, st': State, s: SessionId, launched: seq<Operation>, ends: seq<Ended>)
    requires Untouched(st, st', s) && Traced(st, s, launched, ends)
    ensures Traced(st', s, launched, ends)
  {
  }

  /** A step changes the position of the thread that takes it only. */
  lemma StepMovesOne(st: State, a: Agent)
    requires Inv(st) && CanStep(st, a)
    ensures var pcs := Take(st, a).pcs; a in pcs && pcs == st.pcs[a := pcs[a]]
  {
    if st.pcs[a].CancelWantMap? {
      LookStep(st, a, st.pcs[a].id);
    } else {
      StepMovesFinds(st, a);
    }
  }

  /** A legal move leaves every session alone that the thread does not carry. */
  lemma MoveLeavesOthers(v: View, v': View, a: Agent, s: SessionId, how: Motion, t: SessionId)
    requires Bounded(v) && Placed(v) && Moves(v, v', a, s, how) && !how.Creating? && !how.Dispatching?
    requires var p, r := Before(v, a), v'.roles[a];
             var x, x' := Subject(v.sessions, s), Subject(v'.sessions, s);
             && PlaceMove(v, v', p, r, x, x', a, s, how) && FlagMove(v, p, r, x, x', a, s, how)
             && VerdictMove(p, r, x, x', s, how)
    requires a in v.roles && t < |v.sessions| && v.roles[a].carries != Some(t)
    ensures t < |v'.sessions| && Kept(v.sessions[t], v'.sessions[t]) && v.sessions[t].place != AtAgent(a)
    ensures forall o :: o in v.ops ==> o in v'.ops && v'.ops[o] == v.ops[o]
    ensures v.nextOp in v'.ops ==> v'.ops[v.nextOp].s != t
  {
  }

  lemma StepKeepsOthers(st: State, a: Agent, t: SessionId)
    requires Inv(st) && CanStep(st, a) && t < |st.sessions| && RoleOf(st.pcs[a]).carries != Some(t)
    ensures var st' := Take(st, a);
            && t < |st'.sessions| && Kept(st.sessions[t], st'.sessions[t]) && st.sessions[t].place != AtAgent(a)
            && (forall o :: o in st.ops ==> o in st'.ops && st'.ops[o] == st.ops[o])
            && (st.nextOp in st'.ops ==> st'.ops[st.nextOp].s != t)
  {
    var s, how := StepIsLegal(st, a);
    MoveLeavesOthers(ViewOf(st), ViewOf(Take(st, a)), a, s, how, t);
  }

  lemma StepLeavesOthers(st: State, a: Agent, t: SessionId)
    requires Inv(st) && CanStep(st, a) && t < |st.sessions| && RoleOf(st.pcs[a]).carries != Some(t)
    ensures Untouched(st, Take(st, a), t) && LaunchedBy(st, Take(st, a), t) == []
  {
    StepKeepsOthers(st, a, t);
    StepMovesOne(st, a);
  }

  // --------------------------------------------------------------------- the carrier's steps

  /** The thread is at this position and carries the session. */
  ghost predicate CarriesAt(st: State, a: Agent, s: SessionId, pc: PC) {
    && a in st.pcs && st.pcs[a] == pc && s < |st.sessions| && st.sessions[s].place == AtAgent(a)
    && st.nextOp !in st.ops
  }

  lemma StartStepTraced(st: State, a: Agent, s: SessionId, at: StartAt, launched: seq<Operation>, ends: seq<Ended>)
    requires CarriesAt(st, a, s, Starting(s, at)) && Traced(st, s, launched, ends)
    ensures var st' := StartStep(st, a, s, at);
            s < |st'.sessions| && Traced(st', s, launched + LaunchedBy(st, st', s), ends)
  {
    assert launched == [] && ends == [];
  }

  lemma EnteredTraced(st: State, a: Agent, s: SessionId, at: HandlerAt, launched: seq<Operation>, ends: seq<Ended>)
    requires CarriesAt(st, a, s, Handler(s, at)) && Traced(st, s, launched, ends) && at.Entered?
    requires at.op.Read? && at.ec == Ok ==> at.buffer <= st.sessions[s].peer && LF in at.buffer
    ensures var st' := HandlerStep(st, a, s, at);
            s < |st'.sessions| && LaunchedBy(st, st', s) == [] && Traced(st', s, launched, ends)
  {
    if at.op.Read? && at.ec == Ok {
      Streams.FirstLineOfPrefix(at.buffer, st.sessions[s].peer);
    }
  }

  lemma GuardedTraced(st: State, a: Agent, s: SessionId, at: HandlerAt, launched: seq<Operation>, ends: seq<Ended>)
    requires CarriesAt(st, a, s, Handler(s, at)) && Traced(st, s, launched, ends) && !at.Entered? && !at.Initiate?
    ensures var st' := HandlerStep(st, a, s, at);
            s < |st'.sessions| && LaunchedBy(st, st', s) == [] && Traced(st', s, launched, ends)
  {
  }

  /** The next operation is the next of the chain. */
  lemma NextInChain(x: Session, launched: seq<Operation>, ends: seq<Ended>, op: Operation)
    requires InOrder(x, launched, ends) && |launched| == |ends| && ends != []
    requires ends[|ends| - 1] == Ended(op, Ok) && !op.Read?
    ensures launched + [Next(op, x.request)] <= Chain(x.request)
  {
    assert launched[|ends| - 1] == op;
  }

  lemma InitiateTraced(st: State, a: Agent, s: SessionId, op: Operation, launched: seq<Operation>, ends: seq<Ended>)
    requires CarriesAt(st, a, s, Handler(s, Initiate(op))) && Traced(st, s, launched, ends)
    ensures var st' := HandlerStep(st, a, s, Initiate(op));
            s < |st'.sessions| && Traced(st', s, launched + LaunchedBy(st, st', s), ends)
  {
    NextInChain(st.sessions[s], launched, ends, op);
  }

  lemma CompletionTraced(st: State, a: Agent, s: SessionId, held: bool, at: CompletionAt,
                         launched: seq<Operation>, ends: seq<Ended>)
    requires CarriesAt(st, a, s, Completion(s, held, at)) && Traced(st, s, launched, ends)
    ensures var st' := CompletionStep(st, a, s, held, at);
            s < |st'.sessions| && LaunchedBy(st, st', s) == [] && Traced(st', s, launched, ends)
  {
  }

  lemma CarrierIsAt(st: State, a: Agent, s: SessionId)
    requires Inv(st) && CanStep(st, a) && RoleOf(st.pcs[a]).carries == Some(s)
    ensures CarriesAt(st, a, s, st.pcs[a])
    ensures (st.pcs[a].Handler? || st.pcs[a].Completion? || st.pcs[a].Starting?) && st.pcs[a].s == s
  {
    assert ViewOf(st).roles[a] == RoleOf(st.pcs[a]);
  }

  lemma CarrierTraced(st: State, a: Agent, s: SessionId, launched: seq<Operation>, ends: seq<Ended>)
    requires Inv(st) && CanStep(st, a) && RoleOf(st.pcs[a]).carries == Some(s)
    requires s < |st.sessions| && Traced(st, s, launched, ends)
    ensures var st' := Take(st, a);
            s < |st'.sessions| && Traced(st', s, launched + LaunchedBy(st, st', s), ends)
  {
    CarrierIsAt(st, a, s);
    assert launched + [] == launched;
    match st.pcs[a] {
      case Starting(_, at) => StartStepTraced(st, a, s, at, launched, ends);
      case Completion(_, held, at) => CompletionTraced(st, a, s, held, at, launched, ends);
      case Handler(_, at) =>
        if at.Initiate? {
          InitiateTraced(st, a, s, at.op, launched, ends);
        } else if at.Entered? {
          if at.op.Read? && at.ec == Ok {
            EnteredHasLine(st, a, s, at);
          }
          EnteredTraced(st, a, s, at, launched, ends);
        } else {
          GuardedTraced(st, a, s, at, launched, ends);
        }
    }
  }

  // ------------------------------------------------------------------------ every action

  /** Operations are for sessions that exist. */
  lemma NothingForNobody(st: State, st': State, s: SessionId)
    requires Inv(st') && |st'.sessions| <= s
    ensures LaunchedBy(st, st', s) == []
  {
    assert Bounded(ViewOf(st'));
  }

  lemma NextIsNew(st: State)
    requires Inv(st)
    ensures st.nextOp !in st.ops
  {
    assert Bounded(ViewOf(st));
  }

  lemma StepTraced(st: State, a: Agent, s: SessionId, launched: seq<Operation>, ends: seq<Ended>)
    requires Inv(st) && CanStep(st, a) && s < |st.sessions| && Traced(st, s, launched, ends)
    ensures var st' := Take(st, a);
            s < |st'.sessions| && Traced(st', s, launched + LaunchedBy(st, st', s), ends)
  {
    if RoleOf(st.pcs[a]).carries == Some(s) {
      CarrierTraced(st, a, s, launched, ends);
    } else {
      StepLeavesOthers(st, a, s);
      UntouchedTraced(st, Take(st, a), s, launched, ends);
      assert launched + [] == launched;
    }
  }

  lemma StepSessions(st: State, a: Agent)
    requires Inv(st) && CanStep(st, a)
    ensures |Take(st, a).sessions| == |st.sessions|
  {
    var s, how := StepIsLegal(st, a);
    assert SessionMove(ViewOf(st), ViewOf(Take(st, a)), s, how);
  }

  /** A thread in `run()` or outside the client carries nothing. */
  lemma IdleCarriesNothing(st: State, a: Agent, s: SessionId)
    requires Inv(st) && s < |st.sessions| && (a in st.pcs ==> RoleOf(st.pcs[a]).carries == None)
    ensures st.sessions[s].place != AtAgent(a)
  {
    assert a in st.pcs ==> ViewOf(st).roles[a] == RoleOf(st.pcs[a]);
    assert Carried(ViewOf(st));
  }

  /** The thread that is handed an operation carries its session. */
  lemma DispatchedTraced(st: State, action: Action, s: SessionId, launched: seq<Operation>, ends: seq<Ended>)
    requires Enabled(st, action) && action.Dispatch? && s == st.ops[action.t].s
    requires Traced(st, s, launched, ends) && st.sessions[s].place == InOperation(action.t)
    ensures var st' := Do(st, action);
            s < |st'.sessions| && Traced(st', s, launched, ends + [Ended(st.ops[action.t].op, action.ec)])
  {
  }

  lemma DispatchLeavesOthers(st: State, action: Action, s: SessionId)
    requires Enabled(st, action) && action.Dispatch? && s < |st.sessions| && s != st.ops[action.t].s
    requires st.sessions[s].place != AtAgent(Worker(action.w)) && st.sessions[s].place != InOperation(action.t)
    ensures Untouched(st, Do(st, action), s)
  {
  }

  lemma OperationIsAwaited(st: State, t: nat, s: SessionId)
    requires Inv(st) && t in st.ops && s < |st.sessions|
    ensures st.ops[t].s == s <==> st.sessions[s].place == InOperation(t)
  {
    assert Awaited(ViewOf(st));
  }

  lemma DispatchLaunchesNothing(st: State, action: Action, s: SessionId)
    requires Enabled(st, action) && action.Dispatch? && st.nextOp !in st.ops
    ensures LaunchedBy(st, Do(st, action), s) == []
  {
  }

  lemma DispatchTraced(st: State, action: Action, s: SessionId, launched: seq<Operation>, ends: seq<Ended>)
    requires Inv(st) && Enabled(st, action) && action.Dispatch? && s < |st.sessions|
    requires Traced(st, s, launched, ends)
    ensures var st' := Do(st, action);
            && s < |st'.sessions| && LaunchedBy(st, st', s) == []
            && Traced(st', s, launched, ends + EndedBy(st, action, s))
  {
    NextIsNew(st);
    DispatchLaunchesNothing(st, action, s);
    OperationIsAwaited(st, action.t, s);
    if st.ops[action.t].s == s {
      DispatchedTraced(st, action, s, launched, ends);
    } else {
      IdleCarriesNothing(st, Worker(action.w), s);
      DispatchLeavesOthers(st, action, s);
      UntouchedTraced(st, Do(st, action), s, launched, ends);
      assert ends + [] == ends;
    }
  }

  /** A thread that carries nothing moves, and at most a new session is made. */
  ghost predicate MovesAside(st: State, st': State, a: Agent) {
    && st'.ops == st.ops && st.sessions <= st'.sessions
    && forall b :: b in st.pcs && b != a ==> b in st'.pcs && st'.pcs[b] == st.pcs[b]
  }

  lemma AsideIsUntouched(st: State, st': State, a: Agent, s: SessionId)
    requires MovesAside(st, st', a) && s < |st.sessions| && st.sessions[s].place != AtAgent(a)
    requires st.nextOp !in st.ops
    ensures Untouched(st, st', s) && LaunchedBy(st, st', s) == []
  {
  }

  /** A call, a worker's leaving and the steps of `Close` are such moves. */
  lemma OtherActionMovesAside(st: State, action: Action) returns (a: Agent)
    requires Enabled(st, action) && !action.Step? && !action.Dispatch?
    ensures MovesAside(st, Do(st, action), a)
    ensures a in st.pcs ==> ByClose(action) || RoleOf(st.pcs[a]).carries == None
  {
    a := if action.Start? then Starter(action.u) else if action.Cancel? then Canceller(action.c)
         else if action.Leave? then Worker(action.w) else Starter(0);
  }

  lemma CloseIsUntouched(st: State, action: Action, s: SessionId)
    requires Enabled(st, action) && ByClose(action) && s < |st.sessions| && st.nextOp !in st.ops
    ensures Untouched(st, Do(st, action), s) && LaunchedBy(st, Do(st, action), s) == []
  {
  }

  lemma OtherActionTraced(st: State, action: Action, s: SessionId, launched: seq<Operation>, ends: seq<Ended>)
    requires Inv(st) && Enabled(st, action) && !action.Step? && !action.Dispatch? && s < |st.sessions|
    requires Traced(st, s, launched, ends)
    ensures var st' := Do(st, action);
            s < |st'.sessions| && LaunchedBy(st, st', s) == [] && Traced(st', s, launched, ends)
  {
    NextIsNew(st);
    if ByClose(action) {
      CloseIsUntouched(st, action, s);
    } else {
      var a := OtherActionMovesAside(st, action);
      IdleCarriesNothing(st, a, s);
      AsideIsUntouched(st, Do(st, action), a, s);
    }
    UntouchedTraced(st, Do(st, action), s, launched, ends);
  }

  /** The session that a call makes starts with nothing done for it. */
  lemma NewSessionTraced(st: State, action: Action)
    requires Enabled(st, action) && action.Start?
    ensures |Do(st, action).sessions| == |st.sessions| + 1 && Traced(Do(st, action), |st.sessions|, [], [])
  {
  }

  lemma PlusNothing<T>(all: seq<T>, none: seq<T>)
    requires none == []
    ensures all + none == all
  {
  }

  lemma StepActionTraced(st: State, a: Agent, s: SessionId, launched: seq<Operation>, ends: seq<Ended>)
    requires Inv(st) && Enabled(st, Step(a)) && s < |st.sessions| && Traced(st, s, launched, ends)
    ensures var st' := Do(st, Step(a));
            TracedOrNew(st', s, launched + LaunchedBy(st, st', s), ends + EndedBy(st, Step(a), s))
  {
    StepTraced(st, a, s, launched, ends);
    PlusNothing(ends, EndedBy(st, Step(a), s));
  }

  lemma ActionTracedThere(st: State, action: Action, s: SessionId, launched: seq<Operation>, ends: seq<Ended>)
    requires Inv(st) && Enabled(st, action) && s < |st.sessions| && Traced(st, s, launched, ends)
    ensures var st' := Do(st, action);
            TracedOrNew(st', s, launched + LaunchedBy(st, st', s), ends + EndedBy(st, action, s))
  {
    if action.Step? {
      StepActionTraced(st, action.a, s, launched, ends);
    } else {
      if action.Dispatch? {
        DispatchTraced(st, action, s, launched, ends);
      } else {
        OtherActionTraced(st, action, s, launched, ends);
        PlusNothing(ends, EndedBy(st, action, s));
      }
      PlusNothing(launched, LaunchedBy(st, Do(st, action), s));
    }
  }

  lemma NoOperationNobody(st: State, action: Action, s: SessionId)
    requires Inv(st) && |st.sessions| <= s
    ensures EndedBy(st, action, s) == []
  {
    assert Bounded(ViewOf(st));
  }

  /** Only a call makes a session. */
  lemma SessionsStay(st: State, action: Action)
    requires Inv(st) && Enabled(st, action) && !action.Start?
    ensures |Do(st, action).sessions| == |st.sessions|
  {
    if action.Step? {
      StepSessions(st, action.a);
    }
  }

  lemma StartLaunchesNothing(st: State, action: Action, s: SessionId)
    requires Inv(st) && Enabled(st, action) && action.Start?
    ensures LaunchedBy(st, Do(st, action), s) == []
  {
    NextIsNew(st);
  }

  lemma ActionTracedNew(st: State, action: Action, s: SessionId)
    requires Inv(st) && Enabled(st, action) && |st.sessions| <= s
    ensures var st' := Do(st, action);
            TracedOrNew(st', s, LaunchedBy(st, st', s), EndedBy(st, action, s))
  {
    NoOperationNobody(st, action, s);
    if action.Start? {
      StartLaunchesNothing(st, action, s);
      NewSessionTraced(st, action);
    } else {
      SessionsStay(st, action);
      ActionKeepsInv(st, action);
      NothingForNobody(st, Do(st, action), s);
    }
  }

  lemma NothingPlus<T>(none: seq<T>, more: seq<T>)
    requires none == []
    ensures none + more == more
  {
  }

  lemma PerformedTraced(st: State, action: Action, st': State, s: SessionId,
                        launched: seq<Operation>, ends: seq<Ended>)
    requires Inv(st) && Performs(st, action, st') && TracedOrNew(st, s, launched, ends)
    ensures TracedOrNew(st', s, launched + LaunchedBy(st, st', s), ends + EndedBy(st, action, s))
  {
    if s < |st.sessions| {
      ActionTracedThere(st, action, s, launched, ends);
    } else {
      ActionTracedNew(st, action, s);
      NothingPlus(launched, LaunchedBy(st, st', s));
      NothingPlus(ends, EndedBy(st, action, s));
    }
  }

  ghost predicate GoodTrace(s: SessionId, st: State, launched: seq<Operation>, ends: seq<Ended>) {
    Inv(st) && TracedOrNew(st, s, launched, ends)
  }

  lemma PerformedKeepsTrace(s: SessionId, st: State, action: Action, st': State,
                            launched: seq<Operation>, ends: seq<Ended>)
    requires GoodTrace(s, st, launched, ends) && Performs(st, action, st')
    ensures GoodTrace(s, st', launched + Launches(s)(st, action, st'), ends + Completions(s)(st, action, st'))
  {
    ActionKeepsInv(st, action);
    PerformedTraced(st, action, st', s, launched, ends);
  }

  lemma {:induction false} RunTraced(workers: nat, actions: seq<Action>, states: seq<State>, n: nat, s: SessionId)
    requires Run(Performs, Init(workers), actions, states) && n <= |actions|
    ensures Inv(states[n]) && TracedOrNew(states[n], s, Launched(actions, states, n, s), Ends(actions, states, n, s))
  {
    InitInv(workers);
    forall st, action, st', launched, ends | GoodTrace(s, st, launched, ends) && Performs(st, action, st')
      ensures GoodTrace(s, st', launched + Launches(s)(st, action, st'), ends + Completions(s)(st, action, st'))
    {
      PerformedKeepsTrace(s, st, action, st', launched, ends);
    }
    RunKeepsSeen(Performs, Launches(s), Completions(s), (st, launched, ends) => GoodTrace(s, st, launched, ends),
                 actions, states, n);
  }

  // ------------------------------------------------------------------------- the theorems

  /**
   In every run the operations started for a session are, in this order, a connection, one write of exactly
   its request, and a read; each completes before the next is started, and the next is started after a
   completion without error only.
   */
  lemma {:induction false} OperationsInOrder(
      workers: nat, actions: seq<Action>, states: seq<State>, n: nat, s: SessionId)
    requires Run(Performs, Init(workers), actions, states) && n <= |actions| && s < |states[n].sessions|
    ensures var launched, ends := Launched(actions, states, n, s), Ends(actions, states, n, s);
            && launched <= [Connect, Write(states[n].sessions[s].request), Read]
            && |ends| <= |launched| <= |ends| + 1
            && (forall i :: 0 <= i < |ends| ==> ends[i].op == launched[i])
            && (forall i :: 0 <= i < |launched| - 1 ==> ends[i].ec == Ok)
  {
    RunTraced(workers, actions, states, n, s);
    var launched, ends := Launched(actions, states, n, s), Ends(actions, states, n, s);
    TracedInOrder(states[n], s, launched, ends);
  }

  lemma TracedInOrder(st: State, s: SessionId, launched: seq<Operation>, ends: seq<Ended>)
    requires s < |st.sessions| && Traced(st, s, launched, ends)
    ensures && launched <= [Connect, Write(st.sessions[s].request), Read]
            && |ends| <= |launched| <= |ends| + 1
            && (forall i :: 0 <= i < |ends| ==> ends[i].op == launched[i])
            && (forall i :: 0 <= i < |launched| - 1 ==> ends[i].ec == Ok)
  {
  }

  lemma DeliveredSettles(st: State, s: SessionId, launched: seq<Operation>, ends: seq<Ended>)
    requires Inv(st) && s < |st.sessions| && st.sessions[s].delivered != [] && Traced(st, s, launched, ends)
    ensures var x := st.sessions[s];
            Settles(x, launched, ends) && x.delivered == [Delivery(x.id, x.response, Reported(x))]
    ensures st.sessions[s].finds == {} ==> !st.sessions[s].cancelled
  {
    DeliveredIsFinished(ViewOf(st), s);
    assert CalledBack(ViewOf(st)) && Verdicts(ViewOf(st)) && Flags(ViewOf(st));
  }

  /** The callback's three arguments, by how the session's operations ended. */
  ghost predicate CalledBackWith(x: Session, ends: seq<Ended>) {
    && ends != []
    && (forall i :: 0 <= i < |ends| - 1 ==> ends[i].ec == Ok)
    && var last := ends[|ends| - 1];
       x.delivered == [Delivery(
         x.id,
         if last == Ended(Read, Ok) then Streams.FirstLine(x.peer) else "",
         if last.ec != Ok then last.ec else if x.finds != {} then Aborted else Ok)]
  }

  lemma DeliveredWith(st: State, s: SessionId, launched: seq<Operation>, ends: seq<Ended>)
    requires Inv(st) && s < |st.sessions| && st.sessions[s].delivered != [] && Traced(st, s, launched, ends)
    ensures CalledBackWith(st.sessions[s], ends)
  {
    DeliveredSettles(st, s, launched, ends);
  }

  /**
   The one callback of a session, in every run: it is told the error code the last completed operation was
   dispatched with, all before that having been free of error; if there is none, and some `CancelRequest`
   found the session, the cancellation; and the first line of the peer's bytes exactly if the read succeeded.
   */
  lemma {:induction false} CallbackErrorExactly(
      workers: nat, actions: seq<Action>, states: seq<State>, n: nat, s: SessionId)
    requires Run(Performs, Init(workers), actions, states) && n <= |actions| && s < |states[n].sessions|
    requires states[n].sessions[s].delivered != []
    ensures CalledBackWith(states[n].sessions[s], Ends(actions, states, n, s))
  {
    RunTraced(workers, actions, states, n, s);
    var launched, ends := Launched(actions, states, n, s), Ends(actions, states, n, s);
    DeliveredWith(states[n], s, launched, ends);
  }

  /** A callback without error means that all three operations were started, in order, and none failed. */
  lemma {:induction false} SuccessMeansAllDone(
      workers: nat, actions: seq<Action>, states: seq<State>, n: nat, s: SessionId)
    requires Run(Performs, Init(workers), actions, states) && n <= |actions| && s < |states[n].sessions|
    requires states[n].sessions[s].delivered != [] && states[n].sessions[s].delivered[0].ec == Ok
    ensures var request := states[n].sessions[s].request;
            && Launched(actions, states, n, s) == [Connect, Write(request), Read]
            && Ends(actions, states, n, s) == [Ended(Connect, Ok), Ended(Write(request), Ok), Ended(Read, Ok)]
  {
    RunTraced(workers, actions, states, n, s);
    var launched, ends := Launched(actions, states, n, s), Ends(actions, states, n, s);
    DeliveredSettles(states[n], s, launched, ends);
    ReadIsLast(states[n].sessions[s], launched, ends);
  }

  lemma ReadIsLast(x: Session, launched: seq<Operation>, ends: seq<Ended>)
    requires InOrder(x, launched, ends) && ends != [] && ends[|ends| - 1] == Ended(Read, Ok)
    ensures launched == Chain(x.request)
    ensures ends == [Ended(Connect, Ok), Ended(Write(x.request), Ok), Ended(Read, Ok)]
  {
    assert launched[|ends| - 1] == Read;
    assert |ends| == 3 && |launched| == 3;
  }
}
