/**
 What the asynchronous TCP client guarantees over all its runs: how cancellation and completion are
 ordered, that every callback is called once, what `Close` waits for, and when the two locks, which are
 taken in opposite orders, can deadlock.
 */
module TcpClientTheorems {
  import opened Errors
  import opened Runs
  import opened Text
  import Streams
  import opened TcpClient
  import opened TcpClientInvariants
  import opened TcpClientSteps

  // ------------------------------------------------------------------------- cancellation

  /**
   Cancellation is linearized by the map: whatever the interleaving and whichever identifiers are
   reused, a callback reports the session's own error code, or the cancellation if there is none and
   any `CancelRequest` ever found the session in the map.
   */
  lemma CancellationIsLinearized(workers: nat, st: State, s: SessionId)
    requires Reachable(workers, st) && s < |st.sessions|
    requires st.sessions[s].delivered != []
    ensures var session := st.sessions[s];
            && |session.delivered| == 1 && session.delivered[0].id == session.id
            && session.delivered[0].ec == if session.ec == Ok && session.finds != {} then Aborted else session.ec
  {
    ReachableInv(workers, st);
  }

  lemma LegalFlagsInMap(v: View, v': View, a: Agent, t: SessionId, how: Motion, s: SessionId)
    requires Good(v) && Legal(v, v', a, t, how) && s < |v.sessions|
    ensures s < |v'.sessions|
    ensures v'.sessions[s].cancelled != v.sessions[s].cancelled ==> InMap(v, s)
  {
    if t == s && v'.sessions[s].cancelled != v.sessions[s].cancelled {
      assert v.roles[a].cancels == Some(s);
    }
  }

  lemma CloseKeepsSessions(st: State, action: Action)
    requires Enabled(st, action) && ByClose(action)
    ensures Do(st, action).sessions == st.sessions
  {
  }

  lemma ActionFlagsInMap(st: State, action: Action, s: SessionId)
    requires Inv(st) && Enabled(st, action) && s < |st.sessions|
    ensures s < |Do(st, action).sessions|
    ensures Do(st, action).sessions[s].cancelled != st.sessions[s].cancelled ==> InMap(ViewOf(st), s)
  {
    if ByClose(action) {
      CloseKeepsSessions(st, action);
    } else {
      var a, t, how := ActionIsLegal(st, action);
      LegalFlagsInMap(ViewOf(st), ViewOf(Do(st, action)), a, t, how, s);
    }
  }

  /** The flag is written only while its session is in the map. */
  lemma FlagIsWrittenInMap(workers: nat, st: State, action: Action, s: SessionId)
    requires Reachable(workers, st) && Enabled(st, action) && s < |st.sessions|
    ensures s < |Do(st, action).sessions|
    ensures Do(st, action).sessions[s].cancelled != st.sessions[s].cancelled ==> InMap(ViewOf(st), s)
  {
    ReachableInv(workers, st);
    ActionFlagsInMap(st, action, s);
  }

  lemma FinishedStays(v: View, v': View, a: Agent, t: SessionId, how: Motion, s: SessionId)
    requires Moves(v, v', a, t, how) && Bounded(v) && Placed(v) && MapSound(v)
    requires var p, r := Before(v, a), v'.roles[a];
             var x, x' := Subject(v.sessions, t), Subject(v'.sessions, t);
             PlaceMove(v, v', p, r, x, x', a, t, how) && FlagMove(v, p, r, x, x', a, t, how)
    requires s < |v.sessions| && v.sessions[s].place.Finished?
    ensures v'.sessions[s].delivered == v.sessions[s].delivered
    ensures v'.sessions[s].finds == v.sessions[s].finds
  {
    if t == s {
      SubjectKept(v, v', a, s, how);
    }
  }

  lemma LegalKeepsFinished(v: View, v': View, a: Agent, t: SessionId, how: Motion, s: SessionId)
    requires Good(v) && Legal(v, v', a, t, how)
    requires s < |v.sessions| && v.sessions[s].place.Finished?
    ensures s < |v'.sessions|
    ensures v'.sessions[s].delivered == v.sessions[s].delivered
    ensures v'.sessions[s].finds == v.sessions[s].finds
  {
    FinishedStays(v, v', a, t, how, s);
  }

  lemma DeliveredIsFinished(v: View, s: SessionId)
    requires Placed(v) && s < |v.sessions|
    ensures v.sessions[s].delivered != [] <==> v.sessions[s].place.Finished?
  {
  }

  /** After its callback a session is never called back again, and never found again. */
  lemma DeliveryIsFinal(st: State, action: Action, s: SessionId)
    requires Inv(st) && Enabled(st, action) && s < |st.sessions| && st.sessions[s].delivered != []
    ensures s < |Do(st, action).sessions|
    ensures Do(st, action).sessions[s].delivered == st.sessions[s].delivered
    ensures Do(st, action).sessions[s].finds == st.sessions[s].finds
  {
    DeliveredIsFinished(ViewOf(st), s);
    if ByClose(action) {
      CloseKeepsSessions(st, action);
    } else {
      var a, t, how := ActionIsLegal(st, action);
      LegalKeepsFinished(ViewOf(st), ViewOf(Do(st, action)), a, t, how, s);
    }
  }

  /** The session's callbacks, and the calls that found it, are exactly these. */
  ghost predicate DeliveredAs(st: State, s: SessionId, delivered: seq<Delivery>, finds: set<Agent>) {
    s < |st.sessions| && st.sessions[s].delivered == delivered && st.sessions[s].finds == finds
  }

  ghost predicate DeliveredForGood(st: State, s: SessionId, delivered: seq<Delivery>, finds: set<Agent>) {
    Inv(st) && DeliveredAs(st, s, delivered, finds) && delivered != []
  }

  lemma ActionKeepsDelivery(st: State, action: Action, s: SessionId, delivered: seq<Delivery>, finds: set<Agent>)
    requires Inv(st) && Enabled(st, action) && DeliveredAs(st, s, delivered, finds) && delivered != []
    ensures DeliveredAs(Do(st, action), s, delivered, finds)
  {
    DeliveryIsFinal(st, action, s);
  }

  /** However a run goes on after a session's callback, the session is neither called back nor found again. */
  lemma {:induction false} DeliveryIsFinalForever(workers: nat, st: State, st': State, s: SessionId)
    requires Reachable(workers, st) && Leads(Performs, st, st')
    requires s < |st.sessions| && st.sessions[s].delivered != []
    ensures s < |st'.sessions|
    ensures st'.sessions[s].delivered == st.sessions[s].delivered
    ensures st'.sessions[s].finds == st.sessions[s].finds
  {
    ReachableInv(workers, st);
    var delivered, finds := st.sessions[s].delivered, st.sessions[s].finds;
    forall x, action, x' | DeliveredForGood(x, s, delivered, finds) && Performs(x, action, x')
      ensures DeliveredForGood(x', s, delivered, finds)
    {
      ActionKeepsInv(x, action);
      ActionKeepsDelivery(x, action, s, delivered, finds);
    }
    LeadsKeeps(Performs, x => DeliveredForGood(x, s, delivered, finds), st, st');
  }

  /** A callback without error carries the first line of what the peer sent. */
  lemma SuccessMeansAnswered(workers: nat, st: State, s: SessionId)
    requires Reachable(workers, st) && s < |st.sessions|
    requires var session := st.sessions[s];
             session.delivered != [] && session.delivered[0].ec == Ok
    ensures var session := st.sessions[s];
            LF in session.peer && session.delivered[0].response == Streams.FirstLine(session.peer)
  {
    ReachableInv(workers, st);
  }

  /** With distinct identifiers a `CancelRequest` that looks finds exactly the session that is listed under its own. */
  lemma CancelFindsExactly(workers: nat, st: State, a: Agent, s: SessionId)
    requires Reachable(workers, st) && DistinctIds(st.sessions) && CanStep(st, a) && st.pcs[a].CancelFind?
    requires s < |st.sessions|
    ensures s < |Take(st, a).sessions|
    ensures Take(st, a).sessions[s].finds
         == st.sessions[s].finds + if Listed(ViewOf(st), s) && st.sessions[s].id == st.pcs[a].id then {a} else {}
  {
    MapIsExact(workers, st, st.pcs[a].id, s);
  }

  // ----------------------------------------------------------------- exactly one callback

  /** The threads that carry the session. */
  ghost function Carriers(v: View, s: SessionId): set<Agent> {
    set a | a in v.roles && v.roles[a].carries == Some(s)
  }

  /** The pending operations that will hand it to a thread. */
  ghost function Waits(v: View, s: SessionId): set<nat> {
    set t | t in v.ops && v.ops[t].s == s
  }

  lemma OnePlace(v: View, s: SessionId)
    requires Placed(v) && s < |v.sessions|
    ensures |Carriers(v, s)| + |Waits(v, s)| + |v.sessions[s].delivered| == 1
  {
    match v.sessions[s].place {
      case AtAgent(a) =>
        assert Carriers(v, s) == {a} && Waits(v, s) == {};
      case InOperation(t) =>
        assert Carriers(v, s) == {} && Waits(v, s) == {t};
      case Finished =>
        assert Carriers(v, s) == {} && Waits(v, s) == {};
    }
  }

  /**
   Every session is in exactly one place: carried by one thread, waiting for one operation, or called
   back, once. So when nothing is running or pending for it, its callback has been called.
   */
  lemma ExactlyOnePlace(workers: nat, st: State, s: SessionId)
    requires Reachable(workers, st) && s < |st.sessions|
    ensures var v := ViewOf(st);
            |Carriers(v, s)| + |Waits(v, s)| + |v.sessions[s].delivered| == 1
  {
    ReachableInv(workers, st);
    OnePlace(ViewOf(st), s);
  }

  /** With distinct identifiers the map holds exactly the sessions inserted and not yet erased. */
  lemma MapIsExact(workers: nat, st: State, id: RequestId, s: SessionId)
    requires Reachable(workers, st) && DistinctIds(st.sessions)
    ensures id in st.active && st.active[id] == s <==>
            s < |st.sessions| && st.sessions[s].id == id && Listed(ViewOf(st), s)
  {
    ReachableInv(workers, st);
  }

  // ------------------------------------------------------------------------------ Close

  lemma NobodyCarries(v: View, a: Agent)
    requires Bounded(v) && a in v.roles && Busy(v) == {} && !AnyStarting(v)
    ensures v.roles[a].carries == None
  {
    assert v.roles[a].WellFormed() && a !in Busy(v);
  }

  lemma NothingPending(v: View)
    requires Work(v) && v.work == 0
    ensures Busy(v) == {} && v.ops == map[]
  {
    assert |v.ops| == 0 && |Busy(v)| == 0;
  }

  lemma NothingLeft(v: View, s: SessionId)
    requires Bounded(v) && Placed(v) && Busy(v) == {} && v.ops == map[] && !AnyStarting(v)
    requires s < |v.sessions|
    ensures v.sessions[s].place.Finished?
  {
    if v.sessions[s].place.AtAgent? {
      NobodyCarries(v, v.sessions[s].place.a);
    }
  }

  lemma NothingListed(v: View)
    requires MapSound(v) && forall s :: 0 <= s < |v.sessions| ==> v.sessions[s].place.Finished?
    ensures v.active == map[]
  {
    assert forall s :: 0 <= s < |v.sessions| ==> !Listed(v, s);
  }

  /** The client has the threads it was made with, and no others. */
  ghost predicate Staffed(st: State, workers: nat) {
    st.workers == workers && forall a :: a in st.pcs && a.Worker? ==> a.w < workers
  }

  lemma StepKeepsThreads(st: State, a: Agent)
    requires Inv(st) && CanStep(st, a)
    ensures Take(st, a).workers == st.workers
    ensures forall b :: b in Take(st, a).pcs ==> b in st.pcs
  {
    var v, v' := ViewOf(st), ViewOf(Take(st, a));
    var s, how := StepIsLegal(st, a);
    assert Moves(v, v', a, s, how);
    assert forall b :: b in Take(st, a).pcs ==> b in v'.roles;
  }

  lemma ActionKeepsStaff(st: State, action: Action, workers: nat)
    requires Inv(st) && Enabled(st, action) && Staffed(st, workers)
    ensures Staffed(Do(st, action), workers)
  {
    if action.Step? {
      StepKeepsThreads(st, action.a);
    }
  }

  lemma {:induction false} ReachableStaffed(workers: nat, st: State)
    requires Reachable(workers, st)
    ensures Staffed(st, workers)
  {
    InitInv(workers);
    forall x, action, x' | Inv(x) && Staffed(x, workers) && Performs(x, action, x')
      ensures Inv(x') && Staffed(x', workers)
    {
      ActionKeepsInv(x, action);
      ActionKeepsStaff(x, action, workers);
    }
    LeadsKeeps(Performs, x => Inv(x) && Staffed(x, workers), Init(workers), st);
  }

  /** Only callers are there, no session has been called back, and none is about to be. */
  ghost predicate CallersOnly(st: State) {
    && (forall a :: a in st.pcs ==> ByCaller(a, st.pcs[a]))
    && (forall s :: 0 <= s < |st.sessions| ==> st.sessions[s].delivered == [])
  }

  predicate ByCaller(a: Agent, pc: PC) {
    !a.Worker? && !(pc.InRun? || pc.Exited? || pc.Handler? || pc.Completion? || pc.Release? || pc.Return?)
  }

  lemma StarterSteps(st: State, a: Agent, s: SessionId, at: StartAt)
    requires s < |st.sessions| && CallersOnly(st) && !a.Worker?
    ensures CallersOnly(StartStep(st, a, s, at))
  {
  }

  lemma CancellerFinds(st: State, a: Agent, id: RequestId)
    requires CallersOnly(st) && !a.Worker? && (id in st.active ==> st.active[id] < |st.sessions|)
    ensures CallersOnly(FindStep(st, a, id))
  {
  }

  lemma CancellerSteps(st: State, a: Agent, s: SessionId, at: CancelAt)
    requires s < |st.sessions| && CallersOnly(st) && !a.Worker?
    ensures CallersOnly(CancelStep(st, a, s, at))
  {
  }

  lemma CallerSteps(st: State, a: Agent)
    requires CanStep(st, a) && CallersOnly(st)
    ensures CallersOnly(Take(st, a))
  {
    match st.pcs[a] {
      case Starting(s, at) => StarterSteps(st, a, s, at);
      case CancelWantMap(_) =>
      case CancelFind(id) => CancellerFinds(st, a, id);
      case Cancelling(s, at) => CancellerSteps(st, a, s, at);
      case CancelUnmap =>
    }
  }

  lemma CallerActs(st: State, action: Action)
    requires Enabled(st, action) && CallersOnly(st)
    ensures CallersOnly(Do(st, action))
  {
    if action.Step? {
      CallerSteps(st, action.a);
    }
  }

  /** A client without threads runs no handlers and calls nobody back. */
  lemma {:induction false} ReachableCallersOnly(st: State)
    requires Reachable(0, st)
    ensures CallersOnly(st)
  {
    forall x, action, x' | CallersOnly(x) && Performs(x, action, x') ensures CallersOnly(x') {
      CallerActs(x, action);
    }
    LeadsKeeps(Performs, CallersOnly, Init(0), st);
  }

  /**
   `Close` drains: with at least one worker and no request being started meanwhile, its return means
   that every request ever started has had its callback and that nothing is pending or in the map.
   */
  lemma CloseDrains(workers: nat, st: State)
    requires Reachable(workers, st)
    requires workers > 0
    requires st.closing.Closed? && !st.overlap
    ensures && (forall s :: 0 <= s < |st.sessions| ==> |st.sessions[s].delivered| == 1)
            && st.active == map[] && st.ops == map[] && st.work == 0
  {
    ReachableInv(workers, st);
    ReachableStaffed(workers, st);
    var v := ViewOf(st);
    assert HasLeft(v, 0);
    assert v.stopped && v.work == 0;
    NothingPending(v);
    forall s | 0 <= s < |st.sessions| ensures st.sessions[s].place.Finished? {
      NothingLeft(v, s);
    }
    NothingListed(v);
  }

  /** Exactly when its return, with no request being started meanwhile, means that all have been called back. */
  lemma CloseDrainsExactly(workers: nat, st: State)
    requires Reachable(workers, st)
    requires st.closing.Closed? && !st.overlap
    ensures (forall s :: 0 <= s < |st.sessions| ==> |st.sessions[s].delivered| == 1)
            <==> workers > 0 || st.sessions == []
  {
    if workers > 0 {
      CloseDrains(workers, st);
    } else if st.sessions != [] {
      ReachableCallersOnly(st);
      assert st.sessions[0].delivered == [];
    }
  }

  /** A request is being started when `Close` is called, or is started after that. */
  ghost predicate OverlapsBy(st: State, action: Action) {
    (action.DropGuard? && SomeStarting(st)) || (action.Start? && !st.closing.NotClosing?)
  }

  lemma StepKeepsOverlap(st: State, a: Agent)
    requires Inv(st) && CanStep(st, a)
    ensures Take(st, a).overlap == st.overlap
  {
    var s, how := StepIsLegal(st, a);
    assert SessionMove(ViewOf(st), ViewOf(Take(st, a)), s, how);
  }

  lemma ActionOverlaps(st: State, action: Action)
    requires Inv(st) && Enabled(st, action)
    ensures Do(st, action).overlap <==> st.overlap || OverlapsBy(st, action)
  {
    if action.Step? {
      StepKeepsOverlap(st, action.a);
    }
  }

  /** What the record of requests that are started while `Close` runs says of a run. */
  lemma {:induction false} OverlapExactly(workers: nat, actions: seq<Action>, states: seq<State>, n: nat)
    requires Run(Performs, Init(workers), actions, states) && n <= |actions|
    ensures states[n].overlap <==> exists i :: 0 <= i < n && OverlapsBy(states[i], actions[i])
  {
    InitInv(workers);
    forall st, action, st' | Inv(st) && Performs(st, action, st')
      ensures Inv(st') && (st'.overlap <==> st.overlap || OverlapsBy(st, action))
    {
      ActionKeepsInv(st, action);
      ActionOverlaps(st, action);
    }
    RunMarks(Performs, Inv, (st: State) => st.overlap, OverlapsBy, actions, states, n);
  }

  // --------------------------------------------------------------------------- deadlock

  /** Thread `a` needs a lock that thread `b` holds. */
  ghost predicate WaitsFor(st: State, a: Agent, b: Agent) {
    a in st.pcs && b in st.pcs &&
    ((WantsMap(st.pcs[a]) && st.mapOwner == Some(b))
     || (WantsGuard(st.pcs[a]) && st.pcs[a].s < |st.sessions| && st.sessions[st.pcs[a].s].guard == Some(b)))
  }

  /** Each thread of the list waits for the next one, and the last for the first. */
  ghost predicate WaitingCycle(st: State, threads: seq<Agent>) {
    && threads != []
    && (forall i, j :: 0 <= i < |threads| && j == After1(i, |threads|) ==> WaitsFor(st, threads[i], threads[j]))
  }

  function After1(i: nat, n: nat): nat {
    if i + 1 < n then i + 1 else 0
  }

  /**
   The one way to deadlock: a handler that saw the flag holds the guard and wants the map, and a
   canceller holds the map and wants the guard.
   */
  ghost predicate Embrace(st: State, w: Agent, c: Agent, s: SessionId) {
    w in st.pcs && c in st.pcs && st.pcs[w] == Completion(s, true, LockMap) && st.pcs[c] == Cancelling(s, CancelLock)
  }

  predicate Waiting(pc: PC) {
    WantsMap(pc) || WantsGuard(pc)
  }

  /** Inside the map's critical section only a canceller waits, for a guard. */
  lemma WaitingInMap(pc: PC)
    requires RoleOf(pc).inMap && Waiting(pc)
    ensures pc.Cancelling? && pc.at.CancelLock?
  {
  }

  /** Holding a guard only a handler that saw the flag waits, for the map. */
  lemma WaitingWithGuard(pc: PC, s: SessionId)
    requires RoleOf(pc).guards == Some(s) && Waiting(pc)
    ensures pc == Completion(s, true, LockMap)
  {
  }

  /** The locks a thread's position says it holds are those recorded as its own. */
  lemma Holdings(st: State, a: Agent)
    requires Inv(st) && a in st.pcs
    ensures RoleOf(st.pcs[a]).inMap <==> st.mapOwner == Some(a)
    ensures forall s :: 0 <= s < |st.sessions| ==>
              (RoleOf(st.pcs[a]).guards == Some(s) <==> st.sessions[s].guard == Some(a))
    ensures RoleOf(st.pcs[a]).carries.Some? ==> RoleOf(st.pcs[a]).carries.value < |st.sessions|
    ensures RoleOf(st.pcs[a]).guards.Some? ==> RoleOf(st.pcs[a]).guards.value < |st.sessions|
    ensures RoleOf(st.pcs[a]).cancels.Some? ==> RoleOf(st.pcs[a]).cancels.value < |st.sessions|
    ensures RoleOf(st.pcs[a]).handling ==> 0 < st.work
    ensures st.mapOwner.Some? ==> st.mapOwner.value in st.pcs
    ensures forall s :: 0 <= s < |st.sessions| && st.sessions[s].guard.Some? ==> st.sessions[s].guard.value in st.pcs
    ensures forall id :: id in st.active ==> st.active[id] < |st.sessions|
  {
    var v := ViewOf(st);
    assert v.roles[a] == RoleOf(st.pcs[a]);
    assert v.roles[a].handling ==> a in Busy(v);
  }

  /** Whoever holds the map and waits is a canceller; whoever it waits for holds that guard. */
  lemma MapWaitEmbraces(st: State, b: Agent, c: Agent)
    requires Inv(st) && st.mapOwner == Some(b) && WaitsFor(st, b, c) && Waiting(st.pcs[c])
    ensures st.pcs[b].Cancelling? && Embrace(st, c, b, st.pcs[b].s)
  {
    Holdings(st, b);
    Holdings(st, c);
    WaitingInMap(st.pcs[b]);
    WaitingWithGuard(st.pcs[c], st.pcs[b].s);
  }

  /** Whoever holds a guard and waits, waits for the map. */
  lemma GuardWaitsForMap(st: State, a: Agent, b: Agent, c: Agent)
    requires Inv(st) && WaitsFor(st, a, b) && st.mapOwner != Some(b) && WaitsFor(st, b, c)
    ensures st.mapOwner == Some(c)
  {
    Holdings(st, b);
    WaitingWithGuard(st.pcs[b], st.pcs[a].s);
  }

  /** Four waits in a row contain an embrace. */
  lemma FourWaitsEmbrace(st: State, a: Agent, b: Agent, c: Agent, d: Agent)
    requires Inv(st) && WaitsFor(st, a, b) && WaitsFor(st, b, c) && WaitsFor(st, c, d)
    requires Waiting(st.pcs[d])
    ensures exists s :: Embrace(st, c, b, s) || Embrace(st, d, c, s)
  {
    if st.mapOwner == Some(b) {
      MapWaitEmbraces(st, b, c);
    } else {
      GuardWaitsForMap(st, a, b, c);
      MapWaitEmbraces(st, c, d);
    }
  }

  lemma CycleHasEmbrace(st: State, threads: seq<Agent>)
    requires Inv(st) && WaitingCycle(st, threads)
    ensures exists w, c, s :: Embrace(st, w, c, s)
  {
    var n := |threads|;
    var i := After1(0, n);
    var j := After1(i, n);
    var k := After1(j, n);
    assert WaitsFor(st, threads[k], threads[After1(k, n)]);
    FourWaitsEmbrace(st, threads[0], threads[i], threads[j], threads[k]);
  }

  lemma EmbraceIsCycle(st: State, w: Agent, c: Agent, s: SessionId)
    requires Inv(st) && Embrace(st, w, c, s)
    ensures WaitingCycle(st, [w, c])
  {
    assert WaitsFor(st, w, c) && WaitsFor(st, c, w) by {
      Holdings(st, w);
      Holdings(st, c);
      EmbraceRoles(s);
    }
    TwoCycle(st, w, c);
  }

  lemma EmbraceRoles(s: SessionId)
    ensures RoleOf(Completion(s, true, LockMap)).guards == RoleOf(Completion(s, true, LockMap)).carries == Some(s)
    ensures RoleOf(Completion(s, true, LockMap)).completing
    ensures RoleOf(Cancelling(s, CancelLock)).inMap && RoleOf(Cancelling(s, CancelLock)).flags == Some(s)
  {
  }

  lemma TwoCycle(st: State, w: Agent, c: Agent)
    requires WaitsFor(st, w, c) && WaitsFor(st, c, w)
    ensures WaitingCycle(st, [w, c])
  {
  }

  /** Exactly when a reachable state is deadlocked. */
  lemma DeadlockExactly(workers: nat, st: State)
    requires Reachable(workers, st)
    ensures (exists threads :: WaitingCycle(st, threads)) <==> (exists w, c, s :: Embrace(st, w, c, s))
  {
    ReachableInv(workers, st);
    if exists threads :: WaitingCycle(st, threads) {
      var threads :| WaitingCycle(st, threads);
      CycleHasEmbrace(st, threads);
    }
    if exists w, c, s :: Embrace(st, w, c, s) {
      var w, c, s :| Embrace(st, w, c, s);
      EmbraceIsCycle(st, w, c, s);
    }
  }

  lemma TwoFinders(v: View, w: Agent, c: Agent, s: SessionId)
    requires Bounded(v) && CancelsSound(v) && Flags(v) && Verdicts(v) && w in v.roles && c in v.roles
    requires v.roles[w].completing && v.roles[w].carries == Some(s) && v.roles[w].guards == Some(s)
    requires v.roles[c].flags == Some(s)
    ensures s < |v.sessions| && exists c' :: c' != c && {c, c'} <= v.sessions[s].finds
  {
    var c' :| c' in v.sessions[s].flaggedBy;
    assert c in v.sessions[s].finds && c !in v.sessions[s].flaggedBy;
    assert {c, c'} <= v.sessions[s].finds;
  }

  lemma RoleAt(st: State, a: Agent, pc: PC)
    requires a in st.pcs && st.pcs[a] == pc
    ensures a in ViewOf(st).roles && ViewOf(st).roles[a] == RoleOf(pc)
  {
  }

  /** A deadlocked session has been found by two different cancel calls. */
  lemma EmbraceNeedsTwoFinders(workers: nat, st: State, w: Agent, c: Agent, s: SessionId)
    requires Reachable(workers, st) && Embrace(st, w, c, s)
    ensures s < |st.sessions| && exists c' :: c' != c && {c, c'} <= st.sessions[s].finds
  {
    ReachableInv(workers, st);
    RoleAt(st, w, Completion(s, true, LockMap));
    RoleAt(st, c, Cancelling(s, CancelLock));
    EmbraceRoles(s);
    TwoFinders(ViewOf(st), w, c, s);
  }

  ghost predicate FoundAtMostOnce(session: Session) {
    forall c, c' :: c in session.finds && c' in session.finds ==> c == c'
  }

  /** In every run in which each session is found by at most one cancel call there is no deadlock. */
  lemma OneFinderMeansNoDeadlock(workers: nat, st: State, threads: seq<Agent>)
    requires Reachable(workers, st)
    requires forall s :: 0 <= s < |st.sessions| ==> FoundAtMostOnce(st.sessions[s])
    ensures !WaitingCycle(st, threads)
  {
    ReachableInv(workers, st);
    if WaitingCycle(st, threads) {
      CycleHasEmbrace(st, threads);
      var w, c, s :| Embrace(st, w, c, s);
      EmbraceNeedsTwoFinders(workers, st, w, c, s);
      assert false;
    }
  }

  /** The thread is inside the client's code. */
  predicate IsInside(pc: PC) {
    !(pc.InRun? || pc.Exited? || pc.StartDone? || pc.CancelDone?)
  }

  ghost predicate Inside(st: State, a: Agent) {
    a in st.pcs && IsInside(st.pcs[a])
  }

  lemma HoldersAreInside(pc: PC)
    requires RoleOf(pc).inMap || RoleOf(pc).guards.Some?
    ensures IsInside(pc)
  {
  }

  /** A thread whose lock, if it wants one, is free can step. */
  lemma FreeMeansStep(st: State, a: Agent, role: Role)
    requires Inside(st, a) && role == RoleOf(st.pcs[a])
    requires role.carries.Some? ==> role.carries.value < |st.sessions|
    requires role.guards.Some? ==> role.guards.value < |st.sessions|
    requires role.cancels.Some? ==> role.cancels.value < |st.sessions|
    requires role.handling ==> 0 < st.work
    requires forall id :: id in st.active ==> st.active[id] < |st.sessions|
    requires WantsMap(st.pcs[a]) ==> st.mapOwner == None
    requires WantsGuard(st.pcs[a]) && st.pcs[a].s < |st.sessions| ==> st.sessions[st.pcs[a].s].guard == None
    ensures CanStep(st, a)
  {
  }

  lemma WaiterHasSession(pc: PC)
    requires WantsGuard(pc)
    ensures RoleOf(pc).carries == Some(pc.s) || RoleOf(pc).cancels == Some(pc.s)
  {
  }

  /** A thread inside the client's code can step unless it waits for a lock another thread holds. */
  lemma StepOrWait(st: State, a: Agent) returns (b: Agent)
    requires Inv(st) && Inside(st, a)
    ensures CanStep(st, a) || (WaitsFor(st, a, b) && Inside(st, b) && Waiting(st.pcs[a]))
  {
    Holdings(st, a);
    b := a;
    var pc := st.pcs[a];
    if WantsMap(pc) && st.mapOwner.Some? {
      b := st.mapOwner.value;
      Holdings(st, b);
      HoldersAreInside(st.pcs[b]);
    } else if WantsGuard(pc) {
      WaiterHasSession(pc);
      if st.sessions[pc.s].guard.Some? {
        b := st.sessions[pc.s].guard.value;
        Holdings(st, b);
        HoldersAreInside(st.pcs[b]);
      } else {
        FreeMeansStep(st, a, RoleOf(pc));
      }
    } else {
      FreeMeansStep(st, a, RoleOf(pc));
    }
  }

  /**
   Without an embrace there is progress: some thread that a blocked thread waits for, directly or
   through others, can take its step.
   */
  lemma NoEmbraceMeansProgress(workers: nat, st: State, a: Agent) returns (b: Agent)
    requires Reachable(workers, st) && Inside(st, a)
    requires forall w, c, s :: !Embrace(st, w, c, s)
    ensures CanStep(st, b)
  {
    ReachableInv(workers, st);
    b := a;
    if !CanStep(st, b) {
      var a1 := StepOrWait(st, a);
      b := a1;
      if !CanStep(st, b) {
        var a2 := StepOrWait(st, a1);
        b := a2;
        if !CanStep(st, b) {
          var a3 := StepOrWait(st, a2);
          b := a3;
          if !CanStep(st, b) {
            var a4 := StepOrWait(st, a3);
            FourWaitsEmbrace(st, a, a1, a2, a3);
          }
        }
      }
    }
  }
}
