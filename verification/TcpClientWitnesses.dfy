/**
 Runs of the asynchronous TCP client in which a guarantee fails, showing that the conditions of
 `TcpClientTheorems` are needed: two cancel calls for one request can deadlock, whoever makes them, and
 `Close` can return with a request unanswered when there is no worker or when the request is started
 meanwhile.
 */
module TcpClientWitnesses {
  import opened Errors
  import opened Runs
  import opened Text
  import Streams
  import opened TcpClient
  import opened TcpClientTheorems

  // ------------------------------------------------------------------ runs with these calls

  predicate IsCall(action: Action) {
    action.Start? || action.Cancel?
  }

  /** A step of the client in which no other call is made. */
  ghost function Within(calls: iset<Action>): (State, Action, State) -> bool {
    (st, action, st') => Performs(st, action, st') && (IsCall(action) ==> action in calls)
  }

  ghost predicate ReachableWithin(workers: nat, calls: iset<Action>, st: State) {
    Leads(Within(calls), Init(workers), st)
  }

  lemma WithinIsReachable(workers: nat, calls: iset<Action>, st: State)
    requires ReachableWithin(workers, calls, st)
    ensures Reachable(workers, st)
  {
    var actions: seq<Action>, states: seq<State> :|
      Run(Within(calls), Init(workers), actions, states) && states[|actions|] == st;
    assert forall i :: 0 <= i < |actions| ==> Within(calls)(states[i], actions[i], states[i + 1]);
    assert Run(Performs, Init(workers), actions, states);
  }

  /** A reachable state and an action that is possible in it lead to a reachable state. */
  lemma Go(workers: nat, calls: iset<Action>, st: State, action: Action) returns (st': State)
    requires ReachableWithin(workers, calls, st) && Enabled(st, action) && (IsCall(action) ==> action in calls)
    ensures ReachableWithin(workers, calls, st') && st' == Do(st, action)
  {
    st' := Do(st, action);
    LeadsFurther(Within(calls), Init(workers), st, action, st');
  }

  /** Two calls that cancel one request, and the call that starts it. */
  datatype Callers = Callers(u: nat, id: RequestId, duration: nat, peer: string, c: nat, c': nat) {
    function Started(): Action {
      Start(u, id, duration, peer)
    }
  }

  /** One session exists, under this identifier; its guard is free and it has not been called back. */
  ghost predicate OneSession(st: State, id: RequestId, cancelled: bool) {
    && |st.sessions| == 1 && st.sessions[0].id == id && st.sessions[0].guard == None
    && st.sessions[0].cancelled == cancelled && st.sessions[0].delivered == []
    && !st.stopped
  }

  /** It is in the map and waits for its connection; nobody holds a lock. */
  ghost predicate Connecting(st: State, id: RequestId, cancelled: bool) {
    && OneSession(st, id, cancelled)
    && st.active == map[id := 0] && st.mapOwner == None && st.ops == map[0 := Pending(0, Connect)]
  }

  ghost predicate At(st: State, a: Agent, pc: PC) {
    a in st.pcs && st.pcs[a] == pc
  }

  ghost predicate Open(st: State, workers: nat) {
    st.closing.NotClosing? && st.guardHeld && st.workers == workers && !st.overlap
  }

  /** The session as its call makes it. */
  function Fresh(x: Callers): Session {
    Session(x.id, RequestText(x.duration), x.peer, Ok, "", false, None, {}, {}, [], AtAgent(Starter(x.u)))
  }

  lemma StartInMap(workers: nat, calls: iset<Action>, x: Callers) returns (st: State)
    requires x.Started() in calls
    ensures ReachableWithin(workers, calls, st)
    ensures && OneSession(st, x.id, false) && Open(st, workers) && st.work == 1 && st.active == map[x.id := 0]
            && st.mapOwner == Some(Starter(x.u)) && st.ops == map[] && st.nextOp == 0
            && st.sessions == [Fresh(x)]
            && st.pcs == Init(workers).pcs[Starter(x.u) := Starting(0, StartUnlock)]
  {
    LeadsNowhere(Within(calls), Init(workers));
    st := Go(workers, calls, Init(workers), x.Started());
    st := Go(workers, calls, st, Step(Starter(x.u)));
    st := Go(workers, calls, st, Step(Starter(x.u)));
  }

  lemma StartOne(workers: nat, calls: iset<Action>, x: Callers) returns (st: State)
    requires x.Started() in calls
    ensures ReachableWithin(workers, calls, st)
    ensures && Connecting(st, x.id, false) && Open(st, workers) && st.work == 2 && st.nextOp == 1
            && st.sessions == [Fresh(x).(place := InOperation(0))]
            && st.pcs == Init(workers).pcs[Starter(x.u) := StartDone]
  {
    st := StartInMap(workers, calls, x);
    st := Go(workers, calls, st, Step(Starter(x.u)));
    st := Go(workers, calls, st, Step(Starter(x.u)));
  }

  /** A cancel call takes the map's lock. */
  lemma CancelLooks(workers: nat, calls: iset<Action>, st: State, c: nat, id: RequestId) returns (st': State)
    requires ReachableWithin(workers, calls, st) && Cancel(c, id) in calls
    requires Canceller(c) !in st.pcs && st.mapOwner == None
    ensures ReachableWithin(workers, calls, st')
    ensures st' == st.(pcs := st.pcs[Canceller(c) := CancelFind(id)], mapOwner := Some(Canceller(c)))
  {
    st' := Go(workers, calls, st, Cancel(c, id));
    assert st' == GoTo(st, Canceller(c), CancelWantMap(id));
    st' := TakesMap(workers, calls, st', c, id);
    assert st.pcs[Canceller(c) := CancelWantMap(id)][Canceller(c) := CancelFind(id)]
        == st.pcs[Canceller(c) := CancelFind(id)];
  }

  lemma TakesMap(workers: nat, calls: iset<Action>, st: State, c: nat, id: RequestId) returns (st': State)
    requires ReachableWithin(workers, calls, st)
    requires At(st, Canceller(c), CancelWantMap(id)) && st.mapOwner == None
    ensures ReachableWithin(workers, calls, st')
    ensures st' == GoTo(st.(mapOwner := Some(Canceller(c))), Canceller(c), CancelFind(id))
  {
    st' := Go(workers, calls, st, Step(Canceller(c)));
  }

  /** And finds the session. */
  lemma CancelFindsOne(workers: nat, calls: iset<Action>, st: State, c: nat, id: RequestId) returns (st': State)
    requires ReachableWithin(workers, calls, st) && |st.sessions| == 1 && Cancel(c, id) in calls
    requires Canceller(c) !in st.pcs && st.mapOwner == None
    requires st.active == map[id := 0]
    ensures ReachableWithin(workers, calls, st')
    ensures && st'.active == st.active && st'.ops == st.ops && st'.stopped == st.stopped
            && st'.mapOwner == Some(Canceller(c))
            && st'.sessions == [st.sessions[0].(finds := st.sessions[0].finds + {Canceller(c)})]
            && st'.pcs == st.pcs[Canceller(c) := Cancelling(0, CancelLock)]
  {
    st' := CancelLooks(workers, calls, st, c, id);
    st' := Finds(workers, calls, st', c, id);
    assert st'.pcs == st.pcs[Canceller(c) := Cancelling(0, CancelLock)];
  }

  lemma Finds(workers: nat, calls: iset<Action>, st: State, c: nat, id: RequestId) returns (st': State)
    requires ReachableWithin(workers, calls, st) && At(st, Canceller(c), CancelFind(id))
    requires |st.sessions| == 1 && st.active == map[id := 0]
    ensures ReachableWithin(workers, calls, st')
    ensures st' == FindStep(st, Canceller(c), id)
  {
    st' := Go(workers, calls, st, Step(Canceller(c)));
  }

  /** It sets the flag and lets go of both locks. */
  lemma CancelFlags(workers: nat, calls: iset<Action>, st: State, c: nat, id: RequestId) returns (st': State)
    requires ReachableWithin(workers, calls, st) && OneSession(st, id, false)
    requires At(st, Canceller(c), Cancelling(0, CancelLock))
    ensures ReachableWithin(workers, calls, st')
    ensures && |st'.sessions| == 1 && st'.sessions[0].id == id && st'.sessions[0].cancelled && !st'.stopped
            && st'.sessions[0].delivered == []
            && st'.active == st.active && st'.ops == st.ops
            && st'.pcs == st.pcs[Canceller(c) := Cancelling(0, CancelSocket)]
  {
    st' := Go(workers, calls, st, Step(Canceller(c)));
    st' := Go(workers, calls, st', Step(Canceller(c)));
  }

  lemma CancelSetsFlag(workers: nat, calls: iset<Action>, st: State, c: nat, id: RequestId) returns (st': State)
    requires ReachableWithin(workers, calls, st) && OneSession(st, id, false)
    requires At(st, Canceller(c), Cancelling(0, CancelLock))
    ensures ReachableWithin(workers, calls, st')
    ensures && OneSession(st', id, true) && st'.active == st.active && st'.mapOwner == None
            && st'.ops == st.ops
            && st'.pcs == st.pcs[Canceller(c) := CancelDone]
  {
    st' := CancelFlags(workers, calls, st, c, id);
    st' := Go(workers, calls, st', Step(Canceller(c)));
    st' := Go(workers, calls, st', Step(Canceller(c)));
    st' := Go(workers, calls, st', Step(Canceller(c)));
  }

  /** The connection completes and its handler sees the flag while it holds the guard. */
  lemma HandlerSeesFlag(workers: nat, calls: iset<Action>, st: State, id: RequestId) returns (st': State)
    requires ReachableWithin(workers, calls, st) && Connecting(st, id, true) && At(st, Worker(0), InRun)
    ensures ReachableWithin(workers, calls, st')
    ensures && |st'.sessions| == 1 && st'.sessions[0].id == id && st'.active == map[id := 0]
            && st'.mapOwner == None && st'.pcs == st.pcs[Worker(0) := Completion(0, true, LockMap)]
  {
    st' := Go(workers, calls, st, Dispatch(0, 0, Ok, ""));
    st' := Go(workers, calls, st', Step(Worker(0)));
    st' := Go(workers, calls, st', Step(Worker(0)));
    st' := Go(workers, calls, st', Step(Worker(0)));
    st' := Go(workers, calls, st', Step(Worker(0)));
  }

  /** A second cancel call finds the session before the handler has erased it: a deadlock every client can reach. */
  lemma DeadlockIsReachable(workers: nat, calls: iset<Action>, x: Callers) returns (st: State)
    requires 1 <= workers && x.c != x.c'
    requires x.Started() in calls && Cancel(x.c, x.id) in calls && Cancel(x.c', x.id) in calls
    ensures ReachableWithin(workers, calls, st) && Embrace(st, Worker(0), Canceller(x.c'), 0)
  {
    st := StartOne(workers, calls, x);
    assert Worker(0) in WorkerSet(workers);
    st := CancelFindsOne(workers, calls, st, x.c, x.id);
    st := CancelSetsFlag(workers, calls, st, x.c, x.id);
    st := HandlerSeesFlag(workers, calls, st, x.id);
    st := CancelFindsOne(workers, calls, st, x.c', x.id);
  }

  // -------------------------------------------------------------------------------- Close

  ghost predicate ClosedUnanswered(st: State) {
    st.closing.Closed? && |st.sessions| == 1 && st.sessions[0].delivered == []
  }

  lemma NobodyStarts(st: State, u: nat)
    requires st.pcs == map[Starter(u) := StartDone]
    ensures !SomeStarting(st)
  {
  }

  /** Without workers `Close` returns while a request, started before it, is unanswered. */
  lemma NoWorkersNoDrain(calls: iset<Action>, x: Callers) returns (st: State)
    requires x.Started() in calls
    ensures Reachable(0, st) && ClosedUnanswered(st) && !st.overlap
  {
    st := StartOne(0, calls, x);
    assert WorkerSet(0) == {};
    assert st.pcs == map[Starter(x.u) := StartDone];
    NobodyStarts(st, x.u);
    st := Go(0, calls, st, DropGuard);
    st := Go(0, calls, st, CloseReturn);
    WithinIsReachable(0, calls, st);
  }

  /** With a worker, too, `Close` can return before a request that is being started is answered. */
  lemma OverlapNoDrain(calls: iset<Action>, x: Callers) returns (st: State)
    requires x.Started() in calls
    ensures Reachable(1, st) && ClosedUnanswered(st)
  {
    assert Worker(0) in WorkerSet(1);
    LeadsNowhere(Within(calls), Init(1));
    st := Go(1, calls, Init(1), x.Started());
    st := Go(1, calls, st, DropGuard);
    st := Go(1, calls, st, Leave(0));
    st := Go(1, calls, st, Join);
    st := Go(1, calls, st, CloseReturn);
    WithinIsReachable(1, calls, st);
  }

  // ------------------------------------------------------------------------------- success

  /** The one session waits for this operation, and nobody is inside the client. */
  ghost predicate WaitsIn(st: State, x: Callers, t: nat, op: Operation) {
    && st.sessions == [Fresh(x).(place := InOperation(t))] && st.ops == map[t := Pending(0, op)] && st.nextOp == t + 1
    && st.active == map[x.id := 0] && st.mapOwner == None && st.work == 2 && !st.stopped
    && At(st, Worker(0), InRun)
  }

  lemma HandlerPassesCheck(workers: nat, calls: iset<Action>, st: State, x: Callers, t: nat, op: Operation)
    returns (st': State)
    requires ReachableWithin(workers, calls, st) && WaitsIn(st, x, t, op) && !op.Read?
    ensures ReachableWithin(workers, calls, st')
    ensures st'.sessions == [Fresh(x).(place := AtAgent(Worker(0)), guard := Some(Worker(0)))]
    ensures && st'.ops == map[] && st'.nextOp == t + 1 && st'.active == map[x.id := 0] && st'.mapOwner == None
            && st'.work == 2 && !st'.stopped && At(st', Worker(0), Handler(0, UnlockGuard(op)))
  {
    st' := Go(workers, calls, st, Dispatch(0, t, Ok, ""));
    st' := Go(workers, calls, st', Step(Worker(0)));
    st' := Go(workers, calls, st', Step(Worker(0)));
    st' := Go(workers, calls, st', Step(Worker(0)));
  }

  lemma HandlerGoesOn(workers: nat, calls: iset<Action>, st: State, x: Callers, t: nat, op: Operation)
    returns (st': State)
    requires ReachableWithin(workers, calls, st) && WaitsIn(st, x, t, op) && !op.Read?
    ensures ReachableWithin(workers, calls, st') && WaitsIn(st', x, t + 1, Next(op, RequestText(x.duration)))
  {
    st' := HandlerPassesCheck(workers, calls, st, x, t, op);
    st' := Go(workers, calls, st', Step(Worker(0)));
    st' := Go(workers, calls, st', Step(Worker(0)));
    st' := Go(workers, calls, st', Step(Worker(0)));
  }

  /** The read completes and the session is on its way to its callback. */
  lemma ReadCompletes(workers: nat, calls: iset<Action>, st: State, x: Callers, t: nat) returns (st': State)
    requires ReachableWithin(workers, calls, st) && WaitsIn(st, x, t, Read) && LF in x.peer
    ensures ReachableWithin(workers, calls, st')
    ensures st'.sessions == [Fresh(x).(place := AtAgent(Worker(0)), response := Streams.FirstLine(x.peer))]
    ensures At(st', Worker(0), Completion(0, false, LockMap)) && st'.mapOwner == None
  {
    st' := Go(workers, calls, st, Dispatch(0, t, Ok, x.peer));
    st' := Go(workers, calls, st', Step(Worker(0)));
    st' := Go(workers, calls, st', Step(Worker(0)));
  }

  lemma CompletesOk(workers: nat, calls: iset<Action>, st: State, x: Callers) returns (st': State)
    requires ReachableWithin(workers, calls, st)
    requires st.sessions == [Fresh(x).(place := AtAgent(Worker(0)), response := Streams.FirstLine(x.peer))]
    requires At(st, Worker(0), Completion(0, false, LockMap)) && st.mapOwner == None
    ensures ReachableWithin(workers, calls, st') && |st'.sessions| == 1
    ensures st'.sessions[0].delivered == [Delivery(x.id, Streams.FirstLine(x.peer), Ok)]
  {
    st' := Go(workers, calls, st, Step(Worker(0)));
    st' := Go(workers, calls, st', Step(Worker(0)));
    st' := Go(workers, calls, st', Step(Worker(0)));
    st' := Go(workers, calls, st', Step(Worker(0)));
    st' := Go(workers, calls, st', Step(Worker(0)));
  }

  /** Every request can succeed whose peer sends a line: the callback is told that line. */
  lemma AnswerIsPossible(workers: nat, calls: iset<Action>, x: Callers) returns (st: State)
    requires 1 <= workers && x.Started() in calls && LF in x.peer
    ensures ReachableWithin(workers, calls, st) && |st.sessions| == 1
    ensures st.sessions[0].delivered == [Delivery(x.id, Streams.FirstLine(x.peer), Ok)]
  {
    st := StartOne(workers, calls, x);
    assert Worker(0) in WorkerSet(workers);
    st := HandlerGoesOn(workers, calls, st, x, 0, Connect);
    st := HandlerGoesOn(workers, calls, st, x, 1, Write(RequestText(x.duration)));
    st := ReadCompletes(workers, calls, st, x, 2);
    st := CompletesOk(workers, calls, st, x);
  }

  // ------------------------------------------------------------------- identifiers used twice

  /** Two sessions wait for their connections; the map has the later one. */
  ghost predicate TwoConnecting(st: State, x: Callers, y: Callers) {
    && st.sessions == [Fresh(x).(place := InOperation(0)), Fresh(y).(place := InOperation(1))]
    && st.ops == map[0 := Pending(0, Connect), 1 := Pending(1, Connect)]
    && st.active == map[x.id := 1] && st.mapOwner == None && !st.stopped
  }

  lemma SecondInMap(workers: nat, calls: iset<Action>, st: State, x: Callers, y: Callers) returns (st': State)
    requires ReachableWithin(workers, calls, st) && y.Started() in calls && x.id == y.id && Starter(y.u) !in st.pcs
    requires st.sessions == [Fresh(x).(place := InOperation(0))] && st.ops == map[0 := Pending(0, Connect)]
    requires st.nextOp == 1 && st.active == map[x.id := 0] && st.mapOwner == None && !st.stopped
    ensures ReachableWithin(workers, calls, st')
    ensures st'.sessions == [Fresh(x).(place := InOperation(0)), Fresh(y)] && st'.active == map[x.id := 1]
    ensures st'.ops == st.ops && st'.nextOp == 1 && !st'.stopped && st'.mapOwner == Some(Starter(y.u))
    ensures st'.pcs == st.pcs[Starter(y.u) := Starting(1, StartUnlock)]
  {
    st' := Go(workers, calls, st, y.Started());
    assert st'.sessions == [Fresh(x).(place := InOperation(0)), Fresh(y)];
    st' := Inserts(workers, calls, st', y);
    assert map[x.id := 0][x.id := 1] == map[x.id := 1];
    assert st.pcs[Starter(y.u) := Starting(1, StartLock)][Starter(y.u) := Starting(1, StartUnlock)]
        == st.pcs[Starter(y.u) := Starting(1, StartUnlock)];
  }

  lemma Inserts(workers: nat, calls: iset<Action>, st: State, y: Callers) returns (st': State)
    requires ReachableWithin(workers, calls, st) && At(st, Starter(y.u), Starting(1, StartLock))
    requires st.mapOwner == None && |st.sessions| == 2
    ensures ReachableWithin(workers, calls, st')
    ensures st' == st.(mapOwner := Some(Starter(y.u)), active := st.active[st.sessions[1].id := 1],
                       pcs := st.pcs[Starter(y.u) := Starting(1, StartUnlock)])
  {
    st' := Go(workers, calls, st, Step(Starter(y.u)));
    st' := Go(workers, calls, st', Step(Starter(y.u)));
    assert st.pcs[Starter(y.u) := Starting(1, StartInsert)][Starter(y.u) := Starting(1, StartUnlock)]
        == st.pcs[Starter(y.u) := Starting(1, StartUnlock)];
  }

  /** A second request under the identifier of one that is pending takes its place in the map. */
  lemma ReuseReplaces(workers: nat, calls: iset<Action>, x: Callers, y: Callers) returns (st: State)
    requires x.Started() in calls && y.Started() in calls && x.id == y.id && x.u != y.u
    ensures ReachableWithin(workers, calls, st) && TwoConnecting(st, x, y)
    ensures forall w :: 0 <= w < workers ==> At(st, Worker(w), InRun)
  {
    st := StartOne(workers, calls, x);
    st := SecondInMap(workers, calls, st, x, y);
    st := Go(workers, calls, st, Step(Starter(y.u)));
    st := Go(workers, calls, st, Step(Starter(y.u)));
    assert forall w :: 0 <= w < workers ==> Worker(w) in WorkerSet(workers);
  }

  /** And when the first one completes, the second is taken out: it is pending and cannot be cancelled any more. */
  lemma ReuseErases(workers: nat, calls: iset<Action>, x: Callers, y: Callers) returns (st: State)
    requires 1 <= workers && x.Started() in calls && y.Started() in calls && x.id == y.id && x.u != y.u
    ensures ReachableWithin(workers, calls, st)
    ensures |st.sessions| == 2 && st.sessions[1] == Fresh(y).(place := InOperation(1)) && st.active == map[]
  {
    st := ReuseReplaces(workers, calls, x, y);
    st := FirstFails(workers, calls, st, x, y);
    st := Go(workers, calls, st, Step(Worker(0)));
    st := Go(workers, calls, st, Step(Worker(0)));
    assert map[x.id := 1] - {x.id} == map[];
  }

  lemma FirstFails(workers: nat, calls: iset<Action>, st: State, x: Callers, y: Callers) returns (st': State)
    requires ReachableWithin(workers, calls, st) && TwoConnecting(st, x, y) && At(st, Worker(0), InRun)
    ensures ReachableWithin(workers, calls, st') && At(st', Worker(0), Completion(0, false, LockMap))
    ensures |st'.sessions| == 2 && st'.sessions[1] == Fresh(y).(place := InOperation(1)) && st'.sessions[0].id == x.id
    ensures st'.active == st.active && st'.mapOwner == None
  {
    st' := Go(workers, calls, st, Dispatch(0, 0, Other(1), ""));
    st' := Go(workers, calls, st', Step(Worker(0)));
    st' := Go(workers, calls, st', Step(Worker(0)));
  }
}
