/**
 What the asynchronous TCP client guarantees to its callers, in terms of the calls they make: when the
 cancel calls cannot deadlock, that finitely many calls make a finite run, and how a run can end.
 */
module TcpClientCalls {
  import opened Errors
  import opened Runs
  import Streams
  import opened TcpClient
  import opened TcpClientInvariants
  import opened TcpClientSteps
  import opened TcpClientTheorems

  // --------------------------------------------------------------- cancel calls and finders

  /** A thread that looks for a session was called with that identifier, and so was every finder. */
  ghost predicate LookersCalled(st: State, calls: seq<Action>) {
    forall a :: a in st.pcs ==> LookerCalled(a, st.pcs[a], calls)
  }

  predicate LookerCalled(a: Agent, pc: PC, calls: seq<Action>) {
    pc.CancelWantMap? || pc.CancelFind? ==> Called(a, pc.id, calls)
  }

  predicate Called(a: Agent, id: RequestId, calls: seq<Action>) {
    a.Canceller? && Cancel(a.c, id) in calls
  }

  ghost predicate FindersCalled(st: State, calls: seq<Action>) {
    forall s, a :: 0 <= s < |st.sessions| && a in st.sessions[s].finds ==> Called(a, st.sessions[s].id, calls)
  }

  /** Every session was started under its identifier. */
  ghost predicate SessionsCalled(st: State, calls: seq<Action>) {
    forall s :: 0 <= s < |st.sessions| ==> Started(st.sessions[s].id, calls)
  }

  ghost predicate Started(id: RequestId, calls: seq<Action>) {
    exists u, duration, peer :: Start(u, id, duration, peer) in calls
  }

  lemma StartedStays(id: RequestId, calls: seq<Action>, more: seq<Action>)
    requires Started(id, calls)
    ensures Started(id, calls + more)
  {
    var u, duration, peer :| Start(u, id, duration, peer) in calls;
    assert Start(u, id, duration, peer) in calls + more;
  }

  /** What a step does to sessions: nothing to identifiers, and it records a finder where one finds. */
  ghost predicate FindsMove(st: State, st': State, a: Agent) {
    && |st.sessions| == |st'.sessions|
    && forall s :: 0 <= s < |st.sessions| ==>
         && st'.sessions[s].id == st.sessions[s].id
         && (st'.sessions[s].finds == st.sessions[s].finds || FoundBy(st, st', a, s))
  }

  ghost predicate FoundBy(st: State, st': State, a: Agent, s: SessionId)
    requires s < |st.sessions| && s < |st'.sessions|
  {
    && a in st.pcs && st.pcs[a] == CancelFind(st.sessions[s].id)
    && st'.sessions[s].finds == st.sessions[s].finds + {a}
  }

  /** The session at `s` is replaced by one with the same identifier and finders, or none is. */
  ghost predicate SameFinds(xs: seq<Session>, ys: seq<Session>) {
    |xs| == |ys| && forall s :: 0 <= s < |xs| ==> ys[s].id == xs[s].id && ys[s].finds == xs[s].finds
  }

  /** Thread `a` moves on and does not start to look for a session. */
  ghost predicate MovesOn(st: State, st': State, a: Agent) {
    && SameFinds(st.sessions, st'.sessions)
    && a in st'.pcs && st'.pcs == st.pcs[a := st'.pcs[a]]
    && !st'.pcs[a].CancelWantMap? && !st'.pcs[a].CancelFind?
  }

  lemma PutMovesOn(st: State, a: Agent, s: SessionId, x: Session, pc: PC)
    requires s < |st.sessions| && x.id == st.sessions[s].id && x.finds == st.sessions[s].finds
    requires !pc.CancelWantMap? && !pc.CancelFind?
    ensures MovesOn(st, GoTo(Put(st, s, x), a, pc), a)
  {
  }

  lemma EnteredMovesOn(st: State, a: Agent, s: SessionId, at: HandlerAt)
    requires s < |st.sessions| && at.Entered?
    ensures MovesOn(st, HandlerStep(st, a, s, at), a)
  {
    var session := st.sessions[s];
    if at.ec != Ok {
      PutMovesOn(st, a, s, session.(ec := at.ec), Completion(s, false, Shutdown));
    } else if at.op.Read? {
      var response := Streams.FirstLine(at.buffer);
      PutMovesOn(st, a, s, session.(response := response), Completion(s, false, Shutdown));
    }
  }

  lemma HandlerMovesOn(st: State, a: Agent, s: SessionId, at: HandlerAt)
    requires s < |st.sessions| && !at.Entered?
    ensures MovesOn(st, HandlerStep(st, a, s, at), a)
  {
  }

  lemma CompletionMovesOn(st: State, a: Agent, s: SessionId, held: bool, at: CompletionAt)
    requires s < |st.sessions|
    ensures MovesOn(st, CompletionStep(st, a, s, held, at), a)
  {
  }

  lemma StartMovesOn(st: State, a: Agent, s: SessionId, at: StartAt)
    requires s < |st.sessions|
    ensures MovesOn(st, StartStep(st, a, s, at), a)
  {
  }

  lemma CancelMovesOn(st: State, a: Agent, s: SessionId, at: CancelAt)
    requires s < |st.sessions|
    ensures MovesOn(st, CancelStep(st, a, s, at), a)
  {
  }

  lemma RestMovesOn(st: State, a: Agent)
    requires CanStep(st, a) && (st.pcs[a].Release? || st.pcs[a].Return? || st.pcs[a].CancelUnmap?)
    ensures MovesOn(st, Take(st, a), a)
  {
  }

  lemma StepMovesOn(st: State, a: Agent)
    requires CanStep(st, a) && !st.pcs[a].CancelFind? && !st.pcs[a].CancelWantMap?
    ensures MovesOn(st, Take(st, a), a)
  {
    match st.pcs[a] {
      case Handler(s, at) =>
        if at.Entered? {
          EnteredMovesOn(st, a, s, at);
        } else {
          HandlerMovesOn(st, a, s, at);
        }
      case Completion(s, held, at) => CompletionMovesOn(st, a, s, held, at);
      case Starting(s, at) => StartMovesOn(st, a, s, at);
      case Cancelling(s, at) => CancelMovesOn(st, a, s, at);
      case Release(_) => RestMovesOn(st, a);
      case Return => RestMovesOn(st, a);
      case CancelUnmap => RestMovesOn(st, a);
    }
  }

  /** A canceller gets the map and starts to look. */
  lemma LookStep(st: State, a: Agent, id: RequestId)
    requires CanStep(st, a) && st.pcs[a] == CancelWantMap(id)
    ensures Take(st, a).sessions == st.sessions && Take(st, a).pcs == st.pcs[a := CancelFind(id)]
  {
  }

  lemma FindsNothing(st: State, a: Agent, id: RequestId)
    requires id !in st.active
    ensures FindStep(st, a, id) == GoTo(st, a, CancelUnmap)
  {
  }

  /** It finds a session, which is the one of that identifier. */
  lemma FindsOne(st: State, a: Agent, id: RequestId)
    requires id in st.active && st.active[id] < |st.sessions| && st.sessions[st.active[id]].id == id
    requires a in st.pcs && st.pcs[a] == CancelFind(id)
    ensures FindsMove(st, FindStep(st, a, id), a)
    ensures FindStep(st, a, id).pcs == st.pcs[a := Cancelling(st.active[id], CancelLock)]
  {
  }

  /** Every step but a canceller's that gets the map keeps it from looking, and finds are recorded right. */
  lemma StepMovesFinds(st: State, a: Agent)
    requires Inv(st) && CanStep(st, a) && !st.pcs[a].CancelWantMap?
    ensures FindsMove(st, Take(st, a), a)
    ensures var pc := Take(st, a).pcs;
            a in pc && pc == st.pcs[a := pc[a]] && !pc[a].CancelWantMap? && !pc[a].CancelFind?
  {
    if st.pcs[a].CancelFind? {
      var id := st.pcs[a].id;
      if id in st.active {
        FoundUnderId(ViewOf(st), id);
        FindsOne(st, a, id);
      } else {
        FindsNothing(st, a, id);
      }
    } else {
      StepMovesOn(st, a);
    }
  }

  lemma MoveKeepsLookers(st: State, st': State, a: Agent, pc: PC, calls: seq<Action>, more: seq<Action>)
    requires LookersCalled(st, calls) && st'.pcs == st.pcs[a := pc] && LookerCalled(a, pc, calls + more)
    ensures LookersCalled(st', calls + more)
  {
  }

  lemma MoveKeepsFinders(st: State, st': State, a: Agent, calls: seq<Action>, more: seq<Action>)
    requires LookersCalled(st, calls) && FindersCalled(st, calls) && FindsMove(st, st', a)
    ensures FindersCalled(st', calls + more)
  {
    forall s, b | 0 <= s < |st'.sessions| && b in st'.sessions[s].finds
      ensures Called(b, st'.sessions[s].id, calls + more)
    {
      if b !in st.sessions[s].finds {
        assert LookerCalled(a, st.pcs[a], calls);
      }
    }
  }

  lemma StepKeepsStarted(st: State, a: Agent, calls: seq<Action>)
    requires Inv(st) && CanStep(st, a) && SessionsCalled(st, calls)
    ensures SessionsCalled(Take(st, a), calls + [Step(a)])
  {
    var st' := Take(st, a);
    if st.pcs[a].CancelWantMap? {
      LookStep(st, a, st.pcs[a].id);
    } else {
      StepMovesFinds(st, a);
    }
    forall s | 0 <= s < |st'.sessions| ensures Started(st'.sessions[s].id, calls + [Step(a)]) {
      assert st'.sessions[s].id == st.sessions[s].id;
      StartedStays(st.sessions[s].id, calls, [Step(a)]);
    }
  }

  lemma OtherActionKeepsStarted(st: State, action: Action, calls: seq<Action>)
    requires Enabled(st, action) && !action.Step? && SessionsCalled(st, calls)
    ensures SessionsCalled(Do(st, action), calls + [action])
  {
    var st' := Do(st, action);
    forall s | 0 <= s < |st'.sessions| ensures Started(st'.sessions[s].id, calls + [action]) {
      if s < |st.sessions| {
        assert st'.sessions[s].id == st.sessions[s].id;
        StartedStays(st.sessions[s].id, calls, [action]);
      } else {
        assert Start(action.u, action.id, action.duration, action.peer) in calls + [action];
      }
    }
  }

  lemma StepKeepsCalled(st: State, a: Agent, calls: seq<Action>)
    requires Inv(st) && CanStep(st, a) && LookersCalled(st, calls) && FindersCalled(st, calls)
    ensures LookersCalled(Take(st, a), calls + [Step(a)]) && FindersCalled(Take(st, a), calls + [Step(a)])
  {
    var st', more := Take(st, a), [Step(a)];
    if st.pcs[a].CancelWantMap? {
      LookStep(st, a, st.pcs[a].id);
      assert LookerCalled(a, st.pcs[a], calls);
      MoveKeepsLookers(st, st', a, CancelFind(st.pcs[a].id), calls, more);
    } else {
      StepMovesFinds(st, a);
      MoveKeepsLookers(st, st', a, st'.pcs[a], calls, more);
    }
    MoveKeepsFinders(st, st', a, calls, more);
  }

  lemma OtherActionKeepsCalled(st: State, action: Action, calls: seq<Action>)
    requires Enabled(st, action) && !action.Step? && LookersCalled(st, calls) && FindersCalled(st, calls)
    ensures LookersCalled(Do(st, action), calls + [action]) && FindersCalled(Do(st, action), calls + [action])
  {
    var st' := Do(st, action);
    forall a | a in st'.pcs ensures LookerCalled(a, st'.pcs[a], calls + [action]) {
      if a in st.pcs {
        assert LookerCalled(a, st.pcs[a], calls);
      }
    }
  }

  ghost predicate AllCalled(st: State, calls: seq<Action>) {
    LookersCalled(st, calls) && FindersCalled(st, calls) && SessionsCalled(st, calls)
  }

  lemma PerformedKeepsCalled(st: State, action: Action, st': State, calls: seq<Action>)
    requires Inv(st) && Performs(st, action, st') && AllCalled(st, calls)
    ensures AllCalled(st', calls + [action])
  {
    if action.Step? {
      StepKeepsCalled(st, action.a, calls);
      StepKeepsStarted(st, action.a, calls);
    } else {
      OtherActionKeepsCalled(st, action, calls);
      OtherActionKeepsStarted(st, action, calls);
    }
  }

  lemma PrefixGrows(actions: seq<Action>, n: nat)
    requires 0 < n <= |actions|
    ensures actions[..n] == actions[..n - 1] + [actions[n - 1]]
  {
  }

  /** Whoever looks for a session, or has found one, was called to cancel it, and every session was started. */
  lemma {:induction false} RunKeepsCalled(workers: nat, actions: seq<Action>, states: seq<State>, n: nat)
    requires Run(Performs, Init(workers), actions, states) && n <= |actions|
    ensures AllCalled(states[n], actions[..n])
    decreases n
  {
    if n > 0 {
      RunKeepsCalled(workers, actions, states, n - 1);
      RunKeepsInv(workers, actions, states, n - 1);
      PrefixGrows(actions, n);
      PerformedKeepsCalled(states[n - 1], actions[n - 1], states[n], actions[..n - 1]);
    }
  }

  /** No identifier is passed to `CancelRequest` twice. */
  ghost predicate CancelsDiffer(actions: seq<Action>) {
    forall i, j :: 0 <= i < j < |actions| && actions[i].Cancel? && actions[j].Cancel? ==> actions[i].id != actions[j].id
  }

  lemma OneCancelCall(actions: seq<Action>, c: nat, c': nat, id: RequestId)
    requires CancelsDiffer(actions) && Cancel(c, id) in actions && Cancel(c', id) in actions
    ensures c == c'
  {
    var i :| 0 <= i < |actions| && actions[i] == Cancel(c, id);
    var j :| 0 <= j < |actions| && actions[j] == Cancel(c', id);
    assert i < j || j < i || i == j;
  }

  /**
   The callers' condition: if no identifier is passed to `CancelRequest` twice there is no deadlock, even
   when identifiers of requests are reused.
   */
  lemma {:induction false} DifferentCancelsMeanNoDeadlock(
      workers: nat, actions: seq<Action>, states: seq<State>, n: nat, threads: seq<Agent>)
    requires Run(Performs, Init(workers), actions, states) && n <= |actions|
    requires CancelsDiffer(actions)
    ensures !WaitingCycle(states[n], threads)
  {
    var st := states[n];
    RunKeepsCalled(workers, actions, states, n);
    forall s | 0 <= s < |st.sessions| ensures FoundAtMostOnce(st.sessions[s]) {
      forall a, b | a in st.sessions[s].finds && b in st.sessions[s].finds ensures a == b {
        assert Called(a, st.sessions[s].id, actions[..n]) && Called(b, st.sessions[s].id, actions[..n]);
        OneCancelCall(actions, a.c, b.c, st.sessions[s].id);
      }
    }
    RunReaches(workers, actions, states, n);
    OneFinderMeansNoDeadlock(workers, st, threads);
  }

  /** Every state of a run is reachable. */
  lemma RunReaches(workers: nat, actions: seq<Action>, states: seq<State>, n: nat)
    requires Run(Performs, Init(workers), actions, states) && n <= |actions|
    ensures Reachable(workers, states[n])
  {
    PrefixOfRun(Performs, Init(workers), actions, states, n);
  }
}
