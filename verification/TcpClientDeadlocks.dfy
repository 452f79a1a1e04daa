/** Exactly which calls of the asynchronous TCP client's users can deadlock it. */
module TcpClientDeadlocks {
  import opened Errors
  import opened Runs
  import opened TcpClient
  import opened TcpClientSteps
  import opened TcpClientTheorems
  import opened TcpClientCalls
  import opened TcpClientEnding
  import opened TcpClientWitnesses

  /** Some run in which no other requests are started and no other cancel calls made comes to a deadlock. */
  ghost predicate CanDeadlock(workers: nat, calls: iset<Action>) {
    exists st, threads :: ReachableWithin(workers, calls, st) && WaitingCycle(st, threads)
  }

  /** A request may be started and its identifier passed to `CancelRequest` twice. */
  ghost predicate CancelledTwice(calls: iset<Action>) {
    exists x: Callers :: Asked(x, calls)
  }

  predicate Asked(x: Callers, calls: iset<Action>) {
    x.Started() in calls && Cancel(x.c, x.id) in calls && Cancel(x.c', x.id) in calls && x.c != x.c'
  }

  /** The calls of such a run, as the actions it is made of. */
  lemma WithinIsRun(workers: nat, calls: iset<Action>, st: State) returns (actions: seq<Action>, states: seq<State>)
    requires ReachableWithin(workers, calls, st)
    ensures Run(Performs, Init(workers), actions, states) && states[|actions|] == st
    ensures forall action :: action in actions && IsCall(action) ==> action in calls
  {
    actions, states :| Run(Within(calls), Init(workers), actions, states) && states[|actions|] == st;
    forall i | 0 <= i < |actions|
      ensures Performs(states[i], actions[i], states[i + 1]) && (IsCall(actions[i]) ==> actions[i] in calls)
    {
      assert Within(calls)(states[i], actions[i], states[i + 1]);
    }
  }

  /** A deadlocked session was started, and two calls to cancel it were made. */
  lemma EmbraceWasAsked(workers: nat, calls: iset<Action>, st: State, w: Agent, c: Agent, s: SessionId)
    requires ReachableWithin(workers, calls, st) && Embrace(st, w, c, s)
    ensures CancelledTwice(calls)
  {
    var actions, states := WithinIsRun(workers, calls, st);
    var n := |actions|;
    assert actions[..n] == actions;
    RunKeepsCalled(workers, actions, states, n);
    WithinIsReachable(workers, calls, st);
    EmbraceNeedsTwoFinders(workers, st, w, c, s);
    var c' :| c' != c && {c, c'} <= st.sessions[s].finds;
    var id := st.sessions[s].id;
    assert c in {c, c'} && c' in {c, c'};
    assert Called(c, id, actions) && Called(c', id, actions) && Started(id, actions);
    var u, duration, peer :| Start(u, id, duration, peer) in actions;
    assert Asked(Callers(u, id, duration, peer, c.c, c'.c), calls);
  }

  /** Exactly which calls can deadlock a client: two to cancel one request, if it has a worker. */
  lemma CallersDeadlockExactly(workers: nat, calls: iset<Action>)
    ensures CanDeadlock(workers, calls) <==> workers > 0 && CancelledTwice(calls)
  {
    if CanDeadlock(workers, calls) {
      var st, threads :| ReachableWithin(workers, calls, st) && WaitingCycle(st, threads);
      WithinIsReachable(workers, calls, st);
      DeadlockExactly(workers, st);
      var w, c, s :| Embrace(st, w, c, s);
      EmbraceWasAsked(workers, calls, st, w, c, s);
      EmbraceHasWorker(workers, st, w, c, s);
    }
    if workers > 0 && CancelledTwice(calls) {
      var x: Callers :| Asked(x, calls);
      var st := DeadlockIsReachable(workers, calls, x);
      WithinIsReachable(workers, calls, st);
      ReachableInv(workers, st);
      EmbraceIsCycle(st, Worker(0), Canceller(x.c'), 0);
    }
  }

  /** Handlers are run by workers only. */
  lemma EmbraceHasWorker(workers: nat, st: State, w: Agent, c: Agent, s: SessionId)
    requires Reachable(workers, st) && Embrace(st, w, c, s)
    ensures workers > 0
  {
    if workers == 0 {
      ReachableCallersOnly(st);
    }
  }

  /**
   So with a worker, no request being started once `Close` is called, and no two calls to cancel one
   request, a run that cannot go on has returned from `Close` and answered every request.
   */
  lemma EndsAnsweredWithin(workers: nat, calls: iset<Action>, st: State)
    requires ReachableWithin(workers, calls, st) && !CancelledTwice(calls)
    requires Still(st) && !st.closing.NotClosing? && workers > 0 && !st.overlap
    ensures st.closing.Closed? && st.active == map[]
    ensures forall s :: 0 <= s < |st.sessions| ==> |st.sessions[s].delivered| == 1
  {
    WithinIsReachable(workers, calls, st);
    EndsClosedOrEmbraced(workers, st);
    forall w, c, s ensures !Embrace(st, w, c, s) {
      if Embrace(st, w, c, s) {
        EmbraceWasAsked(workers, calls, st, w, c, s);
      }
    }
    CloseDrains(workers, st);
  }
}
