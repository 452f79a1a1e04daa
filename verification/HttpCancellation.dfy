/**
 One HTTP request and any number of concurrent `cancel()` calls, as a state machine: the caller's
 `execute()`, the completion handlers on any number of io threads, and the cancelling threads take
 atomic steps that interleave freely. The bytes are the subject of module `HttpClient`.
 */
module HttpCancellation {
  import opened Errors
  import opened Runs

  /**
   The operations of a request, by number: 1 resolve, 2 connect, 3 write, 4 read the status line, 5 read
   the headers, 6 read the body. Handler `k` runs when operation `k` completes; handler 0 is `execute`.
   */
  const OPERATIONS := 6

  datatype Agent = Caller | Io(w: nat) | Canceller(c: nat)

  /** How a handler's parsing ends: the bytes are accepted, rejected, or keep its loop going for ever. */
  datatype Parse = Accepts | Rejects | Spins

  datatype PC =
    | Idle
    /** Handler `k` is entered, with what it will make of the bytes. */
    | Entered(k: nat, ec: ErrorCode, parse: Parse)
    /** The header loop of handler 5 goes on for ever. */
    | Spinning
    /** The part of handler `k` that is guarded by the cancel mutex. */
    | WantLock(k: nat)
    | Check(k: nat)
    | Launch(k: nat)
    | UnlockAndReturn
    | UnlockAndAbort
    | Finish(ec: ErrorCode)
    | CancelWantLock
    | CancelSet
    | CancelIo
    | CancelUnlock
    | CancelDone

  /** Where the request is, as recorded by a history field. */
  datatype Place = NotStarted | AtAgent(a: Agent) | InOperation(t: nat) | Finished

  /**
   The request's mutex, flag and pending operations, and three histories: the values the checks of the
   flag read, the operations launched, and the errors the callback was called with.
   */
  datatype State = State(
    pcs: map<Agent, PC>,
    owner: Option<Agent>,
    flag: bool,
    ops: map<nat, nat>,
    nextOp: nat,
    checks: seq<bool>,
    launched: seq<nat>,
    callbacks: seq<ErrorCode>,
    place: Place)

  datatype Action =
    | Execute
    | Cancel(c: nat)
    | Step(a: Agent)
    /** Operation `t` completes on io thread `w`. */
    | Complete(w: nat, t: nat, ec: ErrorCode, parse: Parse)

  function Init(): State {
    State(map[], None, false, map[], 0, [], [], [], NotStarted)
  }

  predicate HoldsLock(pc: PC) {
    pc.Check? || pc.Launch? || pc.UnlockAndReturn? || pc.UnlockAndAbort?
    || pc.CancelSet? || pc.CancelIo? || pc.CancelUnlock?
  }

  /** The thread decides how the request goes on. */
  predicate Carries(pc: PC) {
    pc.Entered? || pc.Spinning? || pc.WantLock? || pc.Check? || pc.Launch? || pc.UnlockAndAbort? || pc.Finish?
  }

  predicate CanStep(st: State, a: Agent) {
    a in st.pcs && !st.pcs[a].Idle? && !st.pcs[a].Spinning? && !st.pcs[a].CancelDone?
    && (st.pcs[a].WantLock? || st.pcs[a].CancelWantLock? ==> st.owner == None)
  }

  predicate Enabled(st: State, action: Action) {
    match action
    case Execute => Caller !in st.pcs
    case Cancel(c) => Canceller(c) !in st.pcs
    case Step(a) => CanStep(st, a)
    case Complete(w, t, _, _) => t in st.ops && (Io(w) in st.pcs ==> st.pcs[Io(w)].Idle?)
  }

  function GoTo(st: State, a: Agent, pc: PC): State {
    st.(pcs := st.pcs[a := pc])
  }

  /**
   What handler `k` does before it locks: errors finish the request, and so do the end of the body and a
   status line that is rejected; only the header loop can spin.
   */
  function AfterEntry(k: nat, ec: ErrorCode, parse: Parse): PC {
    if k == OPERATIONS then Finish(if ec == Eof then Ok else ec)
    else if ec != Ok then Finish(ec)
    else if k == 4 && parse.Rejects? then Finish(InvalidResponse)
    else if k == 5 && parse.Spins? then Spinning
    else WantLock(k)
  }

  function Take(st: State, a: Agent): State
    requires CanStep(st, a)
  {
    match st.pcs[a]
    case Entered(k, ec, parse) => GoTo(st, a, AfterEntry(k, ec, parse))
    case WantLock(k) => GoTo(st.(owner := Some(a)), a, Check(k))
    case Check(k) =>
      GoTo(st.(checks := st.checks + [st.flag]), a, if st.flag then UnlockAndAbort else Launch(k))
    case Launch(k) =>
      GoTo(st.(ops := st.ops[st.nextOp := k + 1], nextOp := st.nextOp + 1, launched := st.launched + [k + 1],
               place := InOperation(st.nextOp)), a, UnlockAndReturn)
    case UnlockAndReturn => GoTo(st.(owner := None), a, Idle)
    case UnlockAndAbort => GoTo(st.(owner := None), a, Finish(Aborted))
    case Finish(ec) => GoTo(st.(callbacks := st.callbacks + [ec], place := Finished), a, Idle)
    case CancelWantLock => GoTo(st.(owner := Some(a)), a, CancelSet)
    case CancelSet => GoTo(st.(flag := true), a, CancelIo)
    case CancelIo => GoTo(st, a, CancelUnlock)
    case CancelUnlock => GoTo(st.(owner := None), a, CancelDone)
    case _ => st
  }

  function Do(st: State, action: Action): State
    requires Enabled(st, action)
  {
    match action
    case Execute => GoTo(st.(place := AtAgent(Caller)), Caller, WantLock(0))
    case Cancel(c) => GoTo(st, Canceller(c), CancelWantLock)
    case Step(a) => Take(st, a)
    case Complete(w, t, ec, parse) =>
      GoTo(st.(ops := st.ops - {t}, place := AtAgent(Io(w))), Io(w), Entered(st.ops[t], ec, parse))
  }

  ghost predicate Performs(st: State, action: Action, st': State) {
    Enabled(st, action) && st' == Do(st, action)
  }

  ghost predicate Reachable(st: State) {
    Leads(Performs, Init(), st)
  }

  // ---------------------------------------------------------------------- the invariant

  /** The mutex's owner is the one thread in a critical section. */
  ghost predicate Locked(st: State) {
    && (forall a :: a in st.pcs ==> (HoldsLock(st.pcs[a]) <==> st.owner == Some(a)))
    && (st.owner.Some? ==> st.owner.value in st.pcs)
  }

  /** The request is in exactly one place. */
  ghost predicate Placed(st: State) {
    && (forall a :: a in st.pcs ==> (Carries(st.pcs[a]) <==> st.place == AtAgent(a)))
    && (st.place.AtAgent? ==> st.place.a in st.pcs)
    && (forall t :: t in st.ops <==> st.place == InOperation(t))
    && |st.callbacks| == (if st.place.Finished? then 1 else 0)
    && (st.place.NotStarted? <==> Caller !in st.pcs)
  }

  function Falses(n: nat): (s: seq<bool>)
    ensures |s| == n && forall i :: 0 <= i < n ==> !s[i]
  {
    seq(n, i => false)
  }

  function UpTo(n: nat): (s: seq<nat>)
    ensures |s| == n && forall i :: 0 <= i < n ==> s[i] == i + 1
  {
    seq(n, i => i + 1)
  }

  /** A successful outcome has passed every check and launched every operation. */
  ghost predicate Outcome(st: State, ec: ErrorCode) {
    && (ec == Ok ==> |st.launched| == OPERATIONS && st.checks == Falses(OPERATIONS))
    && (true in st.checks ==> ec == Aborted)
    && |st.launched| <= |st.checks|
  }

  /** How the checks made and the operations launched go with the place the request is in. */
  ghost predicate Progress(st: State) {
    && st.launched == UpTo(|st.launched|) && |st.launched| <= OPERATIONS
    && match st.place
       case NotStarted => st.launched == [] && st.checks == []
       case InOperation(t) => t in st.ops && st.ops[t] == |st.launched| && st.checks == Falses(|st.launched|)
       case Finished => |st.callbacks| == 1 && Outcome(st, st.callbacks[0])
       case AtAgent(a) =>
         a in st.pcs &&
         match st.pcs[a]
         case Entered(k, _, _) => k == |st.launched| && st.checks == Falses(k)
         case Spinning => |st.launched| == 5 && st.checks == Falses(5)
         case WantLock(k) => k == |st.launched| < OPERATIONS && st.checks == Falses(k)
         case Check(k) => k == |st.launched| < OPERATIONS && st.checks == Falses(k)
         case Launch(k) => k == |st.launched| < OPERATIONS && st.checks == Falses(k + 1) && !st.flag
         case UnlockAndAbort => st.checks == Falses(|st.launched|) + [true] && st.flag
         case Finish(ec) => Outcome(st, ec)
         case _ => false
  }

  ghost predicate Inv(st: State) {
    Locked(st) && Placed(st) && Progress(st)
  }

  /** A thread moves on and neither takes nor lets go of the mutex. */
  lemma MoveKeepsLocked(st: State, st': State, a: Agent, pc: PC)
    requires Locked(st) && st'.pcs == st.pcs[a := pc] && st'.owner == st.owner
    requires HoldsLock(pc) <==> a in st.pcs && HoldsLock(st.pcs[a])
    ensures Locked(st')
  {
  }

  lemma TakingKeepsLocked(st: State, st': State, a: Agent, pc: PC)
    requires Locked(st) && st'.pcs == st.pcs[a := pc] && st.owner == None && st'.owner == Some(a)
    requires HoldsLock(pc)
    ensures Locked(st')
  {
  }

  lemma ReleaseKeepsLocked(st: State, st': State, a: Agent, pc: PC)
    requires Locked(st) && st'.pcs == st.pcs[a := pc] && st'.owner == None
    requires a in st.pcs && HoldsLock(st.pcs[a]) && !HoldsLock(pc)
    ensures Locked(st')
  {
  }

  lemma StepKeepsLocked(st: State, a: Agent)
    requires Locked(st) && CanStep(st, a)
    ensures Locked(Take(st, a))
  {
    var st' := Take(st, a);
    var before, pc := st.pcs[a], st'.pcs[a];
    if HoldsLock(before) == HoldsLock(pc) {
      MoveKeepsLocked(st, st', a, pc);
    } else if HoldsLock(pc) {
      TakingKeepsLocked(st, st', a, pc);
    } else {
      ReleaseKeepsLocked(st, st', a, pc);
    }
  }

  lemma ActionKeepsLocked(st: State, action: Action)
    requires Locked(st) && Enabled(st, action)
    ensures Locked(Do(st, action))
  {
    var st' := Do(st, action);
    match action {
      case Step(a) => StepKeepsLocked(st, a);
      case Execute => MoveKeepsLocked(st, st', Caller, WantLock(0));
      case Cancel(c) => MoveKeepsLocked(st, st', Canceller(c), CancelWantLock);
      case Complete(w, _, _, _) => MoveKeepsLocked(st, st', Io(w), st'.pcs[Io(w)]);
    }
  }

  /** A thread moves on without touching where the request is. */
  lemma MoveKeepsPlaced(st: State, st': State, a: Agent, pc: PC)
    requires Placed(st) && a in st.pcs
    requires st'.pcs == st.pcs[a := pc] && st'.place == st.place && st'.ops == st.ops && st'.callbacks == st.callbacks
    requires Carries(pc) <==> Carries(st.pcs[a])
    ensures Placed(st')
  {
  }

  lemma LaunchKeepsPlaced(st: State, a: Agent)
    requires Placed(st) && CanStep(st, a) && st.pcs[a].Launch?
    ensures Placed(Take(st, a))
  {
    assert st.place == AtAgent(a);
  }

  lemma FinishKeepsPlaced(st: State, a: Agent)
    requires Placed(st) && CanStep(st, a) && st.pcs[a].Finish?
    ensures Placed(Take(st, a))
  {
    assert st.place == AtAgent(a);
  }

  lemma CompleteKeepsPlaced(st: State, w: nat, t: nat, ec: ErrorCode, parse: Parse)
    requires Placed(st) && Enabled(st, Complete(w, t, ec, parse))
    ensures Placed(Do(st, Complete(w, t, ec, parse)))
  {
    assert st.place == InOperation(t);
  }

  lemma StepKeepsPlaced(st: State, a: Agent)
    requires Placed(st) && CanStep(st, a)
    ensures Placed(Take(st, a))
  {
    if st.pcs[a].Launch? {
      LaunchKeepsPlaced(st, a);
    } else if st.pcs[a].Finish? {
      FinishKeepsPlaced(st, a);
    } else {
      MoveKeepsPlaced(st, Take(st, a), a, Take(st, a).pcs[a]);
    }
  }

  lemma ActionKeepsPlaced(st: State, action: Action)
    requires Placed(st) && Enabled(st, action)
    ensures Placed(Do(st, action))
  {
    match action {
      case Step(a) => StepKeepsPlaced(st, a);
      case Complete(w, t, ec, parse) => CompleteKeepsPlaced(st, w, t, ec, parse);
      case Execute =>
      case Cancel(c) =>
    }
  }

  /** A thread that does not carry the request moves on. */
  lemma OtherStepKeepsProgress(st: State, st': State, a: Agent, pc: PC)
    requires Placed(st) && Locked(st) && Progress(st) && !(a in st.pcs && Carries(st.pcs[a]))
    requires st'.pcs == st.pcs[a := pc] && st'.place == st.place && st'.ops == st.ops && st'.callbacks == st.callbacks
    requires st'.launched == st.launched && st'.checks == st.checks && (st.flag ==> st'.flag)
    requires st'.flag != st.flag ==> st.owner == Some(a) && a in st.pcs
    ensures Progress(st')
  {
  }

  lemma CheckKeepsProgress(st: State, a: Agent)
    requires Placed(st) && Progress(st) && CanStep(st, a) && st.pcs[a].Check?
    ensures Progress(Take(st, a))
  {
    assert st.place == AtAgent(a);
  }

  lemma LaunchKeepsProgress(st: State, a: Agent)
    requires Placed(st) && Progress(st) && CanStep(st, a) && st.pcs[a].Launch?
    ensures Progress(Take(st, a))
  {
    assert st.place == AtAgent(a);
  }

  lemma EntryKeepsProgress(st: State, a: Agent)
    requires Placed(st) && Progress(st) && CanStep(st, a) && st.pcs[a].Entered?
    ensures Progress(Take(st, a))
  {
    assert st.place == AtAgent(a);
  }

  lemma EndKeepsProgress(st: State, a: Agent)
    requires Placed(st) && Progress(st) && CanStep(st, a) && (st.pcs[a].UnlockAndAbort? || st.pcs[a].Finish?)
    ensures Progress(Take(st, a))
  {
    assert st.place == AtAgent(a);
  }

  lemma WantLockKeepsProgress(st: State, a: Agent)
    requires Placed(st) && Progress(st) && CanStep(st, a) && st.pcs[a].WantLock?
    ensures Progress(Take(st, a))
  {
    assert st.place == AtAgent(a);
  }

  lemma StepKeepsProgress(st: State, a: Agent)
    requires Inv(st) && CanStep(st, a)
    ensures Progress(Take(st, a))
  {
    if !Carries(st.pcs[a]) {
      OtherStepKeepsProgress(st, Take(st, a), a, Take(st, a).pcs[a]);
    } else {
      match st.pcs[a] {
        case Entered(_, _, _) => EntryKeepsProgress(st, a);
        case WantLock(_) => WantLockKeepsProgress(st, a);
        case Check(_) => CheckKeepsProgress(st, a);
        case Launch(_) => LaunchKeepsProgress(st, a);
        case UnlockAndAbort => EndKeepsProgress(st, a);
        case Finish(_) => EndKeepsProgress(st, a);
      }
    }
  }

  lemma CompleteKeepsProgress(st: State, w: nat, t: nat, ec: ErrorCode, parse: Parse)
    requires Placed(st) && Progress(st) && Enabled(st, Complete(w, t, ec, parse))
    ensures Progress(Do(st, Complete(w, t, ec, parse)))
  {
    assert st.place == InOperation(t);
  }

  lemma ActionKeepsProgress(st: State, action: Action)
    requires Inv(st) && Enabled(st, action)
    ensures Progress(Do(st, action))
  {
    match action {
      case Step(a) => StepKeepsProgress(st, a);
      case Complete(w, t, ec, parse) => CompleteKeepsProgress(st, w, t, ec, parse);
      case Execute =>
        assert st.place.NotStarted?;
      case Cancel(c) => OtherStepKeepsProgress(st, Do(st, action), Canceller(c), CancelWantLock);
    }
  }

  lemma InitInv()
    ensures Inv(Init())
  {
  }

  lemma ActionKeepsInv(st: State, action: Action)
    requires Inv(st) && Enabled(st, action)
    ensures Inv(Do(st, action))
  {
    ActionKeepsLocked(st, action);
    ActionKeepsPlaced(st, action);
    ActionKeepsProgress(st, action);
  }

  /** The invariant holds wherever a run leads that starts with it. */
  lemma {:induction false} LeadsKeepsInv(st: State, st': State)
    requires Inv(st) && Leads(Performs, st, st')
    ensures Inv(st')
  {
    forall s, action, s' | Inv(s) && Performs(s, action, s') ensures Inv(s') {
      ActionKeepsInv(s, action);
    }
    LeadsKeeps(Performs, Inv, st, st');
  }

  /** So it holds in every reachable state. */
  lemma {:induction false} ReachableInv(st: State)
    requires Reachable(st)
    ensures Inv(st)
  {
    InitInv();
    LeadsKeepsInv(Init(), st);
  }

  // ------------------------------------------------------------------- one execution

  /** The threads that decide how the request goes on. */
  ghost function Carriers(st: State): set<Agent> {
    set a | a in st.pcs && Carries(st.pcs[a])
  }

  /**
   Once `execute` is called the request is in exactly one place: one thread decides how it goes on, or
   one operation is pending, or its callback has been called, once.
   */
  lemma {:induction false} ExactlyOnePlace(st: State)
    requires Reachable(st)
    ensures |Carriers(st)| + |st.ops| + |st.callbacks| == if Caller in st.pcs then 1 else 0
  {
    ReachableInv(st);
    match st.place {
      case AtAgent(a) =>
        assert Carriers(st) == {a};
        assert st.ops.Keys == {};
      case InOperation(t) =>
        assert Carriers(st) == {};
        assert st.ops.Keys == {t};
      case Finished =>
        assert Carriers(st) == {};
        assert st.ops.Keys == {};
      case NotStarted =>
        assert Carriers(st) == {};
        assert st.ops.Keys == {};
    }
    assert |st.ops| == |st.ops.Keys|;
  }

  /** Every thread is outside the request's code and no operation is pending. */
  ghost predicate Quiet(st: State) {
    && (forall a :: a in st.pcs ==> st.pcs[a].Idle? || st.pcs[a].CancelDone?)
    && st.ops == map[]
  }

  /** If the request was executed and everything has completed, its callback was called exactly once. */
  lemma {:induction false} CallbackExactlyOnce(st: State)
    requires Reachable(st) && Caller in st.pcs && Quiet(st)
    ensures |st.callbacks| == 1
  {
    ExactlyOnePlace(st);
    assert Carriers(st) == {};
  }

  /** No path runs the callback while its thread holds the cancel mutex, which is not recursive. */
  lemma {:induction false} CallbackOutsideLock(st: State, a: Agent)
    requires Reachable(st) && a in st.pcs && st.pcs[a].Finish?
    ensures st.owner != Some(a)
  {
    ReachableInv(st);
  }

  /**
   No reachable state is stuck: some thread can step, or an operation is pending, or all is quiet, or the
   one thing left is a header loop that never ends, which holds no lock and launches nothing.
   */
  lemma {:induction false} NeverStuck(st: State)
    requires Reachable(st)
    ensures || Quiet(st)
            || (exists a :: CanStep(st, a))
            || (exists t :: t in st.ops)
            || (exists a :: a in st.pcs && st.pcs[a].Spinning? && Carriers(st) == {a} && st.owner == None)
  {
    ReachableInv(st);
    if st.owner.Some? {
      assert CanStep(st, st.owner.value);
    } else if !Quiet(st) && forall t :: t !in st.ops {
      assert st.ops == map[];
      var a :| a in st.pcs && !st.pcs[a].Idle? && !st.pcs[a].CancelDone?;
      if st.pcs[a].Spinning? {
        assert Carriers(st) == {a};
      } else {
        assert CanStep(st, a);
      }
    }
  }

  // ------------------------------------------------------------------- cancellation

  lemma NoLaunchUnderFlag(st: State, action: Action)
    requires Placed(st) && Progress(st) && st.flag && Enabled(st, action)
    ensures Do(st, action).flag && Do(st, action).launched == st.launched
  {
    assert action.Step? ==> !st.pcs[action.a].Launch?;
  }

  /** The flag is set, and what had been launched then is what has been launched. */
  ghost predicate Quenched(launched: seq<nat>, st: State) {
    Inv(st) && st.flag && st.launched == launched
  }

  /** Once `cancel()` has set the flag, no operation is ever launched again and the flag stays set. */
  lemma {:induction false} NothingLaunchedAfterCancel(st: State, st': State)
    requires Reachable(st) && Leads(Performs, st, st') && st.flag
    ensures st'.flag && st'.launched == st.launched
  {
    ReachableInv(st);
    var launched := st.launched;
    forall s, action, s' | Quenched(launched, s) && Performs(s, action, s') ensures Quenched(launched, s') {
      ActionKeepsInv(s, action);
      NoLaunchUnderFlag(s, action);
    }
    LeadsKeeps(Performs, s => Quenched(launched, s), st, st');
  }

  /** A successful callback means that all six checks found the flag clear and all six operations ran. */
  lemma {:induction false} SuccessMeansNeverSeenCancelled(st: State)
    requires Reachable(st) && Ok in st.callbacks
    ensures st.callbacks == [Ok]
    ensures st.checks == Falses(OPERATIONS) && st.launched == UpTo(OPERATIONS)
  {
    ReachableInv(st);
    SuccessInState(st);
  }

  lemma SuccessInState(st: State)
    requires Inv(st) && Ok in st.callbacks
    ensures st.callbacks == [Ok]
    ensures st.checks == Falses(OPERATIONS) && st.launched == UpTo(OPERATIONS)
  {
    assert st.place.Finished?;
  }

  /** A check that sees the flag decides the outcome. */
  lemma {:induction false} SeenMeansAborted(st: State)
    requires Reachable(st) && true in st.checks && st.callbacks != []
    ensures st.callbacks == [Aborted]
  {
    ReachableInv(st);
    assert st.place.Finished?;
  }

  /**
   If the flag is set before the sixth check, the one in the headers handler, the request cannot
   succeed any more, however the run goes on.
   */
  lemma {:induction false} CancelBeforeLastCheck(st: State, st': State)
    requires Reachable(st) && Leads(Performs, st, st')
    requires st.flag && |st.checks| < OPERATIONS
    ensures Ok !in st'.callbacks
  {
    ReachableInv(st);
    LaunchedAtMostChecks(st);
    NothingLaunchedAfterCancel(st, st');
    LeadsKeepsInv(st, st');
    if Ok in st'.callbacks {
      SuccessInState(st');
      assert false;
    }
  }

  lemma LaunchedAtMostChecks(st: State)
    requires Inv(st)
    ensures |st.launched| <= |st.checks|
  {
  }

  /** A step of a request whose handlers run on these io threads. */
  ghost function On(threads: iset<nat>): (State, Action, State) -> bool {
    (st, action, st') => Performs(st, action, st') && (action.Complete? ==> action.w in threads)
  }

  lemma OnIsPerforms(threads: iset<nat>, st: State, st': State)
    requires Leads(On(threads), st, st')
    ensures Leads(Performs, st, st')
  {
    var actions: seq<Action>, states: seq<State> :|
      Run(On(threads), st, actions, states) && states[|actions|] == st';
    assert forall i :: 0 <= i < |actions| ==> On(threads)(states[i], actions[i], states[i + 1]);
    assert Run(Performs, st, actions, states);
  }

  ghost predicate CanSucceed(threads: iset<nat>, st: State) {
    exists st' :: Leads(On(threads), st, st') && Ok in st'.callbacks
  }

  /** Where a request whose flag is set must be for it to succeed still: past the sixth check, without error. */
  ghost predicate PastLastCheck(st: State) {
    match st.place
    case NotStarted => false
    case InOperation(t) => t in st.ops && st.ops[t] == OPERATIONS
    case Finished => Ok in st.callbacks
    case AtAgent(a) =>
      a in st.pcs &&
      match st.pcs[a]
      case Entered(k, ec, _) => k == OPERATIONS && (ec == Ok || ec == Eof)
      case Finish(ec) => ec == Ok
      case _ => false
  }

  /** A callback that reports success is where such a request ends. */
  lemma SuccessIsPastLastCheck(st: State)
    requires Inv(st) && Ok in st.callbacks
    ensures PastLastCheck(st)
  {
    assert st.place.Finished?;
  }

  lemma ThreadStaysBefore(st: State, a: Agent)
    requires Inv(st) && st.flag && CanStep(st, a) && Carries(st.pcs[a]) && !PastLastCheck(st)
    ensures !PastLastCheck(Take(st, a))
  {
    assert st.place == AtAgent(a);
  }

  lemma OtherStaysBefore(st: State, st': State, a: Agent, pc: PC)
    requires Inv(st) && !PastLastCheck(st) && !(a in st.pcs && Carries(st.pcs[a]))
    requires st'.pcs == st.pcs[a := pc] && st'.place == st.place && st'.ops == st.ops && st'.callbacks == st.callbacks
    ensures !PastLastCheck(st')
  {
  }

  /** With the flag set a request that is not past the last check never gets there. */
  lemma ActionStaysBefore(st: State, action: Action)
    requires Inv(st) && st.flag && Enabled(st, action) && !PastLastCheck(st)
    ensures !PastLastCheck(Do(st, action))
  {
    match action {
      case Execute =>
      case Cancel(c) => OtherStaysBefore(st, Do(st, action), Canceller(c), CancelWantLock);
      case Complete(w, t, _, _) => assert st.place == InOperation(t);
      case Step(a) =>
        if Carries(st.pcs[a]) {
          ThreadStaysBefore(st, a);
        } else {
          OtherStaysBefore(st, Take(st, a), a, Take(st, a).pcs[a]);
        }
    }
  }

  ghost predicate StaysBefore(st: State) {
    Inv(st) && st.flag && !PastLastCheck(st)
  }

  lemma {:induction false} LeadsStaysBefore(st: State, st': State)
    requires StaysBefore(st) && Leads(Performs, st, st')
    ensures StaysBefore(st')
  {
    forall s, action, s' | StaysBefore(s) && Performs(s, action, s') ensures StaysBefore(s') {
      ActionKeepsInv(s, action);
      NoLaunchUnderFlag(s, action);
      ActionStaysBefore(s, action);
    }
    LeadsKeeps(Performs, StaysBefore, st, st');
  }

  /** No io thread is inside `cancel()`. */
  ghost predicate IoThreadsHandle(st: State) {
    forall w :: Io(w) in st.pcs ==> !InCancel(st.pcs[Io(w)])
  }

  predicate InCancel(pc: PC) {
    pc.CancelWantLock? || pc.CancelSet? || pc.CancelIo? || pc.CancelUnlock? || pc.CancelDone?
  }

  lemma ActionKeepsIoThreads(st: State, action: Action)
    requires Enabled(st, action) && IoThreadsHandle(st)
    ensures IoThreadsHandle(Do(st, action))
  {
    if action.Step? {
      assert InCancel(Take(st, action.a).pcs[action.a]) ==> InCancel(st.pcs[action.a]);
    }
  }

  lemma ReachableIoThreadsHandle(st: State)
    requires Reachable(st)
    ensures IoThreadsHandle(st)
  {
    forall s, action, s' | IoThreadsHandle(s) && Performs(s, action, s') ensures IoThreadsHandle(s') {
      ActionKeepsIoThreads(s, action);
    }
    LeadsKeeps(Performs, IoThreadsHandle, Init(), st);
  }

  lemma GoesOn(threads: iset<nat>, st: State, st': State, action: Action)
    requires Leads(On(threads), st, st') && Enabled(st', action) && (action.Complete? ==> action.w in threads)
    ensures Leads(On(threads), st, Do(st', action))
  {
    LeadsFurther(On(threads), st, st', action, Do(st', action));
  }

  /** From there it takes the steps of one thread to succeed. */
  lemma FinishCanSucceed(threads: iset<nat>, st: State, st': State, a: Agent)
    requires Leads(On(threads), st, st') && a in st'.pcs && st'.pcs[a] == Finish(Ok)
    ensures CanSucceed(threads, st)
  {
    GoesOn(threads, st, st', Step(a));
    assert Ok in Do(st', Step(a)).callbacks;
  }

  lemma EnteredCanSucceed(threads: iset<nat>, st: State, st': State, a: Agent)
    requires Leads(On(threads), st, st') && a in st'.pcs && st'.pcs[a].Entered?
    requires st'.pcs[a].k == OPERATIONS && (st'.pcs[a].ec == Ok || st'.pcs[a].ec == Eof)
    ensures CanSucceed(threads, st)
  {
    GoesOn(threads, st, st', Step(a));
    FinishCanSucceed(threads, st, Do(st', Step(a)), a);
  }

  /** A thread that has launched an operation becomes idle. */
  lemma ThreadIsIdle(threads: iset<nat>, st: State, t: nat, w: nat) returns (st': State)
    requires Inv(st) && IoThreadsHandle(st) && t in st.ops
    ensures Leads(On(threads), st, st') && st'.ops == st.ops && (Io(w) in st'.pcs ==> st'.pcs[Io(w)].Idle?)
  {
    LeadsNowhere(On(threads), st);
    st' := st;
    assert st.place == InOperation(t);
    if Io(w) in st.pcs && st.pcs[Io(w)].UnlockAndReturn? {
      GoesOn(threads, st, st, Step(Io(w)));
      st' := Do(st, Step(Io(w)));
    }
  }

  /** When the body of the response is being read, its end makes the request a success, cancelled or not. */
  lemma BodyReadCanSucceed(threads: iset<nat>, st: State, t: nat)
    requires Inv(st) && IoThreadsHandle(st) && threads != iset{}
    requires t in st.ops && st.ops[t] == OPERATIONS
    ensures CanSucceed(threads, st)
  {
    var w :| w in threads;
    var st' := ThreadIsIdle(threads, st, t, w);
    GoesOn(threads, st, st', Complete(w, t, Eof, Accepts));
    EnteredCanSucceed(threads, st, Do(st', Complete(w, t, Eof, Accepts)), Io(w));
  }

  lemma PastLastCheckCanSucceed(threads: iset<nat>, st: State)
    requires Inv(st) && IoThreadsHandle(st) && threads != iset{} && PastLastCheck(st)
    ensures CanSucceed(threads, st)
  {
    LeadsNowhere(On(threads), st);
    match st.place {
      case InOperation(t) => BodyReadCanSucceed(threads, st, t);
      case Finished =>
      case AtAgent(a) =>
        if st.pcs[a].Entered? {
          EnteredCanSucceed(threads, st, st, a);
        } else {
          FinishCanSucceed(threads, st, st, a);
        }
    }
  }

  /**
   The exact boundary of cancellation, for any io threads, one of them or more: once the flag is set, the
   request can succeed if and only if the body is being read, the handler of that read has been entered
   with the end of the stream or no error, it is about to report success, or it has.
   */
  lemma {:induction false} CancelledSucceedsExactly(threads: iset<nat>, st: State)
    requires Leads(On(threads), Init(), st) && threads != iset{} && st.flag
    ensures CanSucceed(threads, st) <==> PastLastCheck(st)
  {
    OnIsPerforms(threads, Init(), st);
    ReachableInv(st);
    if PastLastCheck(st) {
      ReachableIoThreadsHandle(st);
      PastLastCheckCanSucceed(threads, st);
    } else {
      forall st' | Leads(On(threads), st, st') ensures Ok !in st'.callbacks {
        OnIsPerforms(threads, st, st');
        LeadsStaysBefore(st, st');
        if Ok in st'.callbacks {
          SuccessIsPastLastCheck(st');
        }
      }
    }
  }

  /** In each of those places all six checks have been made, and found the flag clear. */
  lemma {:induction false} PastLastCheckMeansChecked(st: State)
    requires Reachable(st) && PastLastCheck(st)
    ensures st.checks == Falses(OPERATIONS) && st.launched == UpTo(OPERATIONS)
  {
    ReachableInv(st);
  }

  /** The first of the six operations to go, on one idle thread, with nobody cancelling. */
  ghost predicate Undisturbed(st: State, t: nat, k: nat, w: nat) {
    && t in st.ops && st.ops[t] == k && 1 <= k <= OPERATIONS && !st.flag && st.owner == None
    && (Io(w) in st.pcs ==> st.pcs[Io(w)].Idle?)
  }

  lemma OperationGoesOn(threads: iset<nat>, st0: State, st: State, t: nat, k: nat, w: nat) returns (st': State)
    requires Leads(On(threads), st0, st) && Undisturbed(st, t, k, w) && w in threads && k < OPERATIONS
    ensures Leads(On(threads), st0, st') && Undisturbed(st', st.nextOp, k + 1, w)
  {
    GoesOn(threads, st0, st, Complete(w, t, Ok, Accepts));
    st' := Do(st, Complete(w, t, Ok, Accepts));
    GoesOn(threads, st0, st', Step(Io(w)));
    st' := Take(st', Io(w));
    st' := HandlerLaunches(threads, st0, st', Io(w), k);
  }

  lemma HandlerLaunches(threads: iset<nat>, st0: State, st: State, a: Agent, k: nat) returns (st': State)
    requires Leads(On(threads), st0, st) && a in st.pcs && st.pcs[a] == WantLock(k) && st.owner == None && !st.flag
    ensures Leads(On(threads), st0, st')
    ensures st'.ops == st.ops[st.nextOp := k + 1] && !st'.flag && st'.owner == None && st'.pcs == st.pcs[a := Idle]
  {
    GoesOn(threads, st0, st, Step(a));
    st' := Take(st, a);
    GoesOn(threads, st0, st', Step(a));
    st' := Take(st', a);
    GoesOn(threads, st0, st', Step(a));
    st' := Take(st', a);
    GoesOn(threads, st0, st', Step(a));
    st' := Take(st', a);
  }

  lemma {:induction false} OperationsSucceed(threads: iset<nat>, st0: State, st: State, t: nat, k: nat, w: nat)
    requires Leads(On(threads), st0, st) && Undisturbed(st, t, k, w) && w in threads
    ensures CanSucceed(threads, st0)
    decreases OPERATIONS - k
  {
    if k == OPERATIONS {
      GoesOn(threads, st0, st, Complete(w, t, Eof, Accepts));
      EnteredCanSucceed(threads, st0, Do(st, Complete(w, t, Eof, Accepts)), Io(w));
    } else {
      var st' := OperationGoesOn(threads, st0, st, t, k, w);
      OperationsSucceed(threads, st0, st', st.nextOp, k + 1, w);
    }
  }

  /** On any io threads, one of them or more, a request can succeed. */
  lemma SuccessIsPossible(threads: iset<nat>)
    requires threads != iset{}
    ensures CanSucceed(threads, Init())
  {
    var w :| w in threads;
    LeadsNowhere(On(threads), Init());
    GoesOn(threads, Init(), Init(), Execute);
    var st := Do(Init(), Execute);
    st := HandlerLaunches(threads, Init(), st, Caller, 0);
    OperationsSucceed(threads, Init(), st, 0, 1, w);
  }

  /** And it can be cancelled, by any thread. */
  lemma AbortIsPossible(threads: iset<nat>, c: nat) returns (st: State)
    ensures Leads(On(threads), Init(), st) && st.callbacks == [Aborted] && st.launched == []
    ensures Canceller(c) in st.pcs && st.pcs[Canceller(c)].CancelDone?
  {
    LeadsNowhere(On(threads), Init());
    GoesOn(threads, Init(), Init(), Cancel(c));
    st := CancelReturns(threads, Do(Init(), Cancel(c)), c);
    GoesOn(threads, Init(), st, Execute);
    st := AbortsAtOnce(threads, Do(st, Execute), c);
  }

  lemma CancelReturns(threads: iset<nat>, st: State, c: nat) returns (st': State)
    requires Leads(On(threads), Init(), st) && st == Do(Init(), Cancel(c))
    ensures Leads(On(threads), Init(), st') && st'.flag && st'.owner == None
    ensures st'.callbacks == [] && st'.launched == []
    ensures st'.pcs == map[Canceller(c) := CancelDone]
  {
    GoesOn(threads, Init(), st, Step(Canceller(c)));
    st' := Take(st, Canceller(c));
    GoesOn(threads, Init(), st', Step(Canceller(c)));
    st' := Take(st', Canceller(c));
    GoesOn(threads, Init(), st', Step(Canceller(c)));
    st' := Take(st', Canceller(c));
    GoesOn(threads, Init(), st', Step(Canceller(c)));
    st' := Take(st', Canceller(c));
  }

  lemma AbortsAtOnce(threads: iset<nat>, st: State, c: nat) returns (st': State)
    requires Leads(On(threads), Init(), st) && st.flag && st.owner == None && st.callbacks == [] && st.launched == []
    requires st.pcs == map[Canceller(c) := CancelDone, Caller := WantLock(0)]
    ensures Leads(On(threads), Init(), st') && st'.callbacks == [Aborted] && st'.launched == []
    ensures Canceller(c) in st'.pcs && st'.pcs[Canceller(c)].CancelDone?
  {
    GoesOn(threads, Init(), st, Step(Caller));
    st' := Take(st, Caller);
    GoesOn(threads, Init(), st', Step(Caller));
    st' := Take(st', Caller);
    GoesOn(threads, Init(), st', Step(Caller));
    st' := Take(st', Caller);
    GoesOn(threads, Init(), st', Step(Caller));
    st' := Take(st', Caller);
  }

  // -------------------------------------------------- the callback's error, over whole runs

  /** The flag is set exactly when some `cancel()` call has got past setting it. */
  ghost predicate FlagByCall(st: State) {
    && (st.flag <==> exists c :: Canceller(c) in st.pcs && HasSet(st.pcs[Canceller(c)]))
    && (forall a :: a in st.pcs && !a.Canceller? ==> !InCancel(st.pcs[a]))
    && (forall c :: Canceller(c) in st.pcs ==> InCancel(st.pcs[Canceller(c)]))
  }

  predicate HasSet(pc: PC) {
    pc.CancelIo? || pc.CancelUnlock? || pc.CancelDone?
  }

  lemma CancellerKeepsFlagByCall(st: State, a: Agent)
    requires CanStep(st, a) && FlagByCall(st) && a.Canceller?
    ensures FlagByCall(Take(st, a))
  {
    var st' := Take(st, a);
    assert InCancel(st.pcs[a]);
    if HasSet(st'.pcs[a]) {
      assert Canceller(a.c) in st'.pcs && HasSet(st'.pcs[Canceller(a.c)]);
    }
    if st.flag {
      var c :| Canceller(c) in st.pcs && HasSet(st.pcs[Canceller(c)]);
      assert Canceller(c) in st'.pcs && HasSet(st'.pcs[Canceller(c)]);
    }
  }

  lemma HandlerKeepsFlagByCall(st: State, a: Agent)
    requires CanStep(st, a) && FlagByCall(st) && !a.Canceller?
    ensures FlagByCall(Take(st, a))
  {
    var st' := Take(st, a);
    assert !InCancel(st.pcs[a]);
    forall c ensures Canceller(c) in st'.pcs <==> Canceller(c) in st.pcs
      ensures Canceller(c) in st.pcs ==> st'.pcs[Canceller(c)] == st.pcs[Canceller(c)]
    {
    }
  }

  lemma ActionKeepsFlagByCall(st: State, action: Action)
    requires Enabled(st, action) && FlagByCall(st)
    ensures FlagByCall(Do(st, action))
  {
    if action.Step? {
      if action.a.Canceller? {
        CancellerKeepsFlagByCall(st, action.a);
      } else {
        HandlerKeepsFlagByCall(st, action.a);
      }
    } else {
      var st' := Do(st, action);
      forall c | Canceller(c) in st.pcs ensures Canceller(c) in st'.pcs && st'.pcs[Canceller(c)] == st.pcs[Canceller(c)]
      {
      }
    }
  }

  /** So once a `cancel()` call has returned the flag is set, and without one it is not. */
  lemma {:induction false} FlagExactly(st: State)
    requires Reachable(st)
    ensures st.flag <==> exists c :: Canceller(c) in st.pcs && HasSet(st.pcs[Canceller(c)])
  {
    forall s, action, s' | FlagByCall(s) && Performs(s, action, s') ensures FlagByCall(s') {
      ActionKeepsFlagByCall(s, action);
    }
    LeadsKeeps(Performs, FlagByCall, Init(), st);
  }

  /** How an operation completed: which, with what error, and what its handler makes of the bytes. */
  datatype Ended = Ended(k: nat, ec: ErrorCode, parse: Parse)

  ghost function EndedBy(st: State, action: Action): seq<Ended> {
    if action.Complete? && action.t in st.ops then [Ended(st.ops[action.t], action.ec, action.parse)] else []
  }

  /** The operations completed in the first `n` steps of a run. */
  ghost function Ends(actions: seq<Action>, states: seq<State>, n: nat): seq<Ended>
    requires n <= |actions| && n <= |states|
  {
    if n == 0 then [] else Ends(actions, states, n - 1) + EndedBy(states[n - 1], actions[n - 1])
  }

  /** The step is a check of the flag that finds it set. */
  ghost predicate SawBy(st: State, action: Action) {
    action.Step? && action.a in st.pcs && st.pcs[action.a].Check? && st.flag
  }

  ghost predicate Saw(actions: seq<Action>, states: seq<State>, n: nat)
    requires n <= |actions| && n <= |states|
  {
    exists i :: 0 <= i < n && SawBy(states[i], actions[i])
  }

  /** The handler of this completion goes on to its check. */
  predicate GoesOnAfter(e: Ended) {
    e.ec == Ok && e.k != OPERATIONS && !(e.k == 4 && e.parse.Rejects?) && !(e.k == 5 && e.parse.Spins?)
  }

  /** The handler of this completion ends the request with this error. */
  predicate EndsWith(e: Ended, ec: ErrorCode) {
    if e.k == OPERATIONS then ec == if e.ec == Eof then Ok else e.ec
    else if e.ec != Ok then ec == e.ec
    else e.k == 4 && e.parse.Rejects? && ec == InvalidResponse
  }

  /** The operations complete in order, and each handler but the last goes on. */
  ghost predicate InOrder(ends: seq<Ended>) {
    && (forall i :: 0 <= i < |ends| ==> ends[i].k == i + 1)
    && (forall i :: 0 <= i < |ends| - 1 ==> GoesOnAfter(ends[i]))
  }

  ghost predicate AllGoOn(ends: seq<Ended>) {
    forall i :: 0 <= i < |ends| ==> GoesOnAfter(ends[i])
  }

  /** The error the callback is to be given. */
  ghost predicate Told(ec: ErrorCode, saw: bool, ends: seq<Ended>) {
    if saw then ec == Aborted else ends != [] && EndsWith(ends[|ends| - 1], ec)
  }

  /** How what has happened goes with the place the request is in. */
  ghost predicate Traced(st: State, saw: bool, ends: seq<Ended>) {
    && InOrder(ends)
    && match st.place
       case NotStarted => ends == [] && !saw
       case InOperation(t) => t in st.ops && st.ops[t] == |ends| + 1 && AllGoOn(ends) && !saw
       case Finished => |st.callbacks| == 1 && Told(st.callbacks[0], saw, ends)
       case AtAgent(a) =>
         a in st.pcs &&
         match st.pcs[a]
         case Entered(k, ec, parse) => !saw && |ends| == k && 0 < k && ends[k - 1] == Ended(k, ec, parse)
         case Spinning => !saw
         case WantLock(k) => !saw && |ends| == k && AllGoOn(ends)
         case Check(k) => !saw && |ends| == k && AllGoOn(ends)
         case Launch(k) => !saw && |ends| == k && AllGoOn(ends)
         case UnlockAndAbort => saw
         case Finish(ec) => Told(ec, saw, ends)
         case _ => false
  }

  lemma CarrierStepTraced(st: State, a: Agent, saw: bool, ends: seq<Ended>)
    requires Inv(st) && CanStep(st, a) && Carries(st.pcs[a]) && Traced(st, saw, ends)
    ensures Traced(Take(st, a), saw || SawBy(st, Step(a)), ends)
  {
    assert st.place == AtAgent(a);
  }

  lemma OtherStepTraced(st: State, a: Agent, saw: bool, ends: seq<Ended>)
    requires Inv(st) && CanStep(st, a) && !Carries(st.pcs[a]) && Traced(st, saw, ends)
    ensures Traced(Take(st, a), saw, ends)
  {
    assert st.place != AtAgent(a);
  }

  lemma CompletionTraced(st: State, w: nat, t: nat, ec: ErrorCode, parse: Parse, ends: seq<Ended>)
    requires Inv(st) && Enabled(st, Complete(w, t, ec, parse)) && Traced(st, false, ends)
    ensures Traced(Do(st, Complete(w, t, ec, parse)), false, ends + [Ended(st.ops[t], ec, parse)])
  {
    assert st.place == InOperation(t);
  }

  lemma CallTraced(st: State, action: Action, saw: bool, ends: seq<Ended>)
    requires Inv(st) && Enabled(st, action) && (action.Execute? || action.Cancel?) && Traced(st, saw, ends)
    ensures Traced(Do(st, action), saw, ends)
  {
    if action.Execute? {
      assert st.place.NotStarted?;
    } else {
      assert st.place != AtAgent(Canceller(action.c));
    }
  }

  lemma ActionTraced(st: State, action: Action, saw: bool, ends: seq<Ended>)
    requires Inv(st) && Enabled(st, action) && Traced(st, saw, ends)
    ensures Traced(Do(st, action), saw || SawBy(st, action), ends + EndedBy(st, action))
  {
    assert ends + [] == ends;
    match action {
      case Step(a) =>
        if Carries(st.pcs[a]) {
          CarrierStepTraced(st, a, saw, ends);
        } else {
          OtherStepTraced(st, a, saw, ends);
        }
      case Complete(w, t, ec, parse) =>
        assert st.place == InOperation(t);
        CompletionTraced(st, w, t, ec, parse, ends);
      case Execute => CallTraced(st, action, saw, ends);
      case Cancel(_) => CallTraced(st, action, saw, ends);
    }
  }

  lemma {:induction false} RunTraced(actions: seq<Action>, states: seq<State>, n: nat)
    requires Run(Performs, Init(), actions, states) && n <= |actions|
    ensures Traced(states[n], Saw(actions, states, n), Ends(actions, states, n))
    decreases n
  {
    if n > 0 {
      RunTraced(actions, states, n - 1);
      PrefixOfRun(Performs, Init(), actions, states, n - 1);
      ReachableInv(states[n - 1]);
      assert Performs(states[n - 1], actions[n - 1], states[n]);
      ActionTraced(states[n - 1], actions[n - 1], Saw(actions, states, n - 1), Ends(actions, states, n - 1));
      SawGrows(actions, states, n);
    }
  }

  lemma SawGrows(actions: seq<Action>, states: seq<State>, n: nat)
    requires 0 < n <= |actions| && n <= |states|
    ensures Saw(actions, states, n) <==> Saw(actions, states, n - 1) || SawBy(states[n - 1], actions[n - 1])
  {
  }

  /**
   What the callback is told, over every run: the operations complete in order, each with its handler going
   on to a check; if a check found the flag set it is the cancellation, and otherwise the last completion's
   own error, the end of the body being success and a rejected status line its own error.
   */
  lemma {:induction false} CallbackErrorExactly(actions: seq<Action>, states: seq<State>, n: nat)
    requires Run(Performs, Init(), actions, states) && n <= |actions| && states[n].callbacks != []
    ensures var ends := Ends(actions, states, n);
            && |states[n].callbacks| == 1
            && (forall i :: 0 <= i < |ends| ==> ends[i].k == i + 1)
            && (forall i :: 0 <= i < |ends| - 1 ==>
                  ends[i].ec == Ok && !(i == 3 && ends[i].parse.Rejects?) && !(i == 4 && ends[i].parse.Spins?))
            && if Saw(actions, states, n) then states[n].callbacks[0] == Aborted
               else
                 ends != [] &&
                 var last, ec := ends[|ends| - 1], states[n].callbacks[0];
                 if |ends| == 6 then ec == if last.ec == Eof then Ok else last.ec
                 else if last.ec != Ok then ec == last.ec
                 else |ends| == 4 && last.parse.Rejects? && ec == InvalidResponse
  {
    RunTraced(actions, states, n);
    PrefixOfRun(Performs, Init(), actions, states, n);
    ReachableInv(states[n]);
    assert states[n].place.Finished?;
  }
}
