/**
 How runs of the asynchronous TCP client end: finitely many calls make a finite run, and a run that
 cannot go on after `Close` was called has returned from it, unless two threads are deadlocked.
 */
module TcpClientEnding {
  import opened Errors
  import opened Runs
  import opened TcpClient
  import opened TcpClientInvariants
  import opened TcpClientSteps
  import opened TcpClientTheorems
  import opened TcpClientCalls

  // -------------------------------------------------------------------- sums over a map

  ghost function Total<K(!new), V(!new)>(m: map<K, V>, weight: V -> nat): nat
    decreases |m|
  {
    if m == map[] then 0
    else
      var k :| k in m;
      weight(m[k]) + Total(m - {k}, weight)
  }

  lemma {:induction false} TotalWithout<K(!new), V(!new)>(m: map<K, V>, weight: V -> nat, k: K)
    requires k in m
    ensures Total(m, weight) == weight(m[k]) + Total(m - {k}, weight)
    decreases |m|
  {
    var j :| j in m && Total(m, weight) == weight(m[j]) + Total(m - {j}, weight);
    if j != k {
      TotalWithout(m - {j}, weight, k);
      TotalWithout(m - {k}, weight, j);
      assert m - {j} - {k} == m - {k} - {j};
    }
  }

  lemma TotalWith<K(!new), V(!new)>(m: map<K, V>, weight: V -> nat, k: K, v: V)
    ensures Total(m[k := v], weight) == weight(v) + Total(m - {k}, weight)
    ensures k !in m ==> Total(m[k := v], weight) == weight(v) + Total(m, weight)
    ensures k in m ==> Total(m[k := v], weight) + weight(m[k]) == weight(v) + Total(m, weight)
  {
    TotalWithout(m[k := v], weight, k);
    assert m[k := v] - {k} == m - {k};
    if k in m {
      TotalWithout(m, weight, k);
    } else {
      assert m - {k} == m;
    }
  }

  // ---------------------------------------------------------- how much a state has ahead of it

  /** The steps a handler has ahead of it, those of the operation it will initiate included. */
  function HandlerWeight(at: HandlerAt): nat {
    var base := if at.op.Connect? then 24 else if at.op.Write? then 17 else 10;
    match at
    case Entered(_, _, _) => base
    case LockGuard(_) => base - 1
    case ReadFlag(_) => base - 2
    case UnlockGuard(_) => base - 3
    case Initiate(_) => base - 4
  }

  function CompletionWeight(at: CompletionAt): nat {
    match at
    case Shutdown => 9
    case LockMap => 8
    case Erase => 7
    case UnlockMap => 6
    case Decide => 5
    case Deliver(_) => 4
  }

  function StartWeight(at: StartAt): nat {
    match at
    case StartLock => 28
    case StartInsert => 27
    case StartUnlock => 26
    case StartConnect => 25
  }

  function CancelWeight(at: CancelAt): nat {
    match at
    case CancelLock => 5
    case CancelSet => 4
    case CancelSocket => 3
    case CancelUnlock => 2
  }

  function Weight(pc: PC): nat {
    match pc
    case InRun => 1
    case Exited => 0
    case Handler(_, at) => HandlerWeight(at)
    case Completion(_, _, at) => CompletionWeight(at)
    case Release(_) => 3
    case Return => 2
    case Starting(_, at) => StartWeight(at)
    case StartDone => 0
    case CancelWantMap(_) => 7
    case CancelFind(_) => 6
    case Cancelling(_, at) => CancelWeight(at)
    case CancelUnmap => 1
    case CancelDone => 0
  }

  /** A pending operation has ahead of it what its handler will have. */
  function PendingWeight(o: Pending): nat {
    if o.op.Connect? then 24 else if o.op.Write? then 17 else 10
  }

  function ClosingWeight(st: State): nat {
    match st.closing
    case NotClosing => st.workers + 2
    case Joining(k) => if k <= st.workers then st.workers - k + 1 else 0
    case Closed => 0
  }

  ghost function Measure(st: State): nat {
    Total(st.pcs, Weight) + Total(st.ops, PendingWeight) + ClosingWeight(st)
  }

  // ------------------------------------------------------------------ what threads there are

  /** Each thread is where threads of its kind can be; after a read no further operation follows. */
  predicate InPlace(a: Agent, pc: PC) {
    match a
    case Worker(_) =>
      || pc.InRun? || pc.Exited? || pc.Completion? || pc.Release? || pc.Return?
      || (pc.Handler? && (pc.hat.op.Read? ==> pc.hat.Entered?))
    case Starter(_) => pc.Starting? || pc.StartDone?
    case Canceller(_) =>
      pc.CancelWantMap? || pc.CancelFind? || pc.Cancelling? || pc.CancelUnmap? || pc.CancelDone?
  }

  ghost predicate Orderly(st: State) {
    && (forall a :: a in st.pcs ==> InPlace(a, st.pcs[a]))
    && (st.work == 0 ==> st.stopped)
    && (st.closing.Joining? ==> st.closing.k <= st.workers)
  }

  /** A thread takes a step: it has less ahead of it than before, the operation it initiates included. */
  ghost predicate Spends(st: State, st': State, a: Agent) {
    && a in st.pcs && a in st'.pcs && st'.pcs == st.pcs[a := st'.pcs[a]]
    && st'.closing == st.closing && st'.workers == st.workers
    && InPlace(a, st'.pcs[a]) && (st'.work == 0 ==> st'.stopped)
    && (|| (st'.ops == st.ops && Weight(st'.pcs[a]) < Weight(st.pcs[a]))
        || (&& st.nextOp in st'.ops && st'.ops == st.ops[st.nextOp := st'.ops[st.nextOp]]
            && Weight(st'.pcs[a]) + PendingWeight(st'.ops[st.nextOp]) < Weight(st.pcs[a])))
  }

  lemma SpendingIsLess(st: State, st': State, a: Agent)
    requires Orderly(st) && Spends(st, st', a) && st.nextOp !in st.ops
    ensures Orderly(st') && Measure(st') < Measure(st)
  {
    TotalWith(st.pcs, Weight, a, st'.pcs[a]);
    if st'.ops != st.ops {
      TotalWith(st.ops, PendingWeight, st.nextOp, st'.ops[st.nextOp]);
    }
  }

  lemma PutSpends(st: State, a: Agent, s: SessionId, x: Session, pc: PC)
    requires a in st.pcs && s < |st.sessions| && InPlace(a, pc) && Weight(pc) < Weight(st.pcs[a])
    requires st.work == 0 ==> st.stopped
    ensures Spends(st, GoTo(Put(st, s, x), a, pc), a)
  {
  }

  lemma EnteredSpends(st: State, a: Agent, s: SessionId, at: HandlerAt)
    requires Orderly(st) && s < |st.sessions| && a in st.pcs && st.pcs[a] == Handler(s, at) && at.Entered?
    ensures Spends(st, HandlerStep(st, a, s, at), a)
  {
    var st', session := HandlerStep(st, a, s, at), st.sessions[s];
    if at.ec != Ok {
      PutSpends(st, a, s, session.(ec := at.ec), Completion(s, false, Shutdown));
    } else if at.op.Read? {
      PutSpends(st, a, s, st'.sessions[s], Completion(s, false, Shutdown));
    }
  }

  lemma HandlerSpends(st: State, a: Agent, s: SessionId, at: HandlerAt)
    requires Orderly(st) && s < |st.sessions| && a in st.pcs && st.pcs[a] == Handler(s, at)
    requires !at.Entered? && !at.Initiate?
    ensures Spends(st, HandlerStep(st, a, s, at), a)
  {
  }

  lemma InitiateSpends(st: State, a: Agent, s: SessionId, at: HandlerAt)
    requires Orderly(st) && s < |st.sessions| && a in st.pcs && st.pcs[a] == Handler(s, at) && at.Initiate?
    ensures Spends(st, HandlerStep(st, a, s, at), a)
  {
    assert InPlace(a, st.pcs[a]);
  }

  lemma DeliverSpends(st: State, a: Agent, s: SessionId, held: bool, at: CompletionAt)
    requires Orderly(st) && s < |st.sessions| && a in st.pcs && st.pcs[a] == Completion(s, held, at) && at.Deliver?
    ensures Spends(st, CompletionStep(st, a, s, held, at), a)
  {
    assert InPlace(a, st.pcs[a]);
    var st' := CompletionStep(st, a, s, held, at);
    PutSpends(st, a, s, st'.sessions[s], if held then Release(s) else Return);
  }

  /** So does a step that changes no more than the map and its owner. */
  lemma MapSpends(st: State, x: State, a: Agent, pc: PC)
    requires a in st.pcs && InPlace(a, pc) && Weight(pc) < Weight(st.pcs[a]) && (st.work == 0 ==> st.stopped)
    requires x == st.(mapOwner := x.mapOwner, active := x.active)
    ensures Spends(st, GoTo(x, a, pc), a)
  {
  }

  lemma CompletionSpends(st: State, a: Agent, s: SessionId, held: bool, at: CompletionAt)
    requires Orderly(st) && s < |st.sessions| && a in st.pcs && st.pcs[a] == Completion(s, held, at) && !at.Deliver?
    ensures Spends(st, CompletionStep(st, a, s, held, at), a)
  {
    assert InPlace(a, st.pcs[a]);
    match at {
      case Shutdown => MapSpends(st, st, a, Completion(s, held, LockMap));
      case LockMap => MapSpends(st, st.(mapOwner := Some(a)), a, Completion(s, held, Erase));
      case Erase =>
        var active := st.active - {st.sessions[s].id};
        MapSpends(st, st.(active := active), a, Completion(s, held, UnlockMap));
      case UnlockMap => MapSpends(st, st.(mapOwner := None), a, Completion(s, held, Decide));
      case Decide => MapSpends(st, st, a, Completion(s, held, Deliver(Verdict(st.sessions[s]))));
    }
  }

  lemma StartSpends(st: State, a: Agent, s: SessionId, at: StartAt)
    requires Orderly(st) && s < |st.sessions| && a in st.pcs && st.pcs[a] == Starting(s, at)
    ensures Spends(st, StartStep(st, a, s, at), a)
  {
    assert InPlace(a, st.pcs[a]);
  }

  lemma CancelSpends(st: State, a: Agent, s: SessionId, at: CancelAt)
    requires Orderly(st) && s < |st.sessions| && a in st.pcs && st.pcs[a] == Cancelling(s, at)
    ensures Spends(st, CancelStep(st, a, s, at), a)
  {
    assert InPlace(a, st.pcs[a]);
  }

  lemma FindSpends(st: State, a: Agent, id: RequestId)
    requires Orderly(st) && CanStep(st, a) && st.pcs[a] == CancelFind(id)
    ensures Spends(st, FindStep(st, a, id), a)
  {
    assert InPlace(a, st.pcs[a]);
  }

  lemma RestSpends(st: State, a: Agent)
    requires Orderly(st) && CanStep(st, a)
    requires st.pcs[a].Release? || st.pcs[a].Return? || st.pcs[a].CancelWantMap? || st.pcs[a].CancelUnmap?
    ensures Spends(st, Take(st, a), a)
  {
    assert InPlace(a, st.pcs[a]);
  }

  lemma StepSpends(st: State, a: Agent)
    requires Orderly(st) && CanStep(st, a)
    ensures Spends(st, Take(st, a), a)
  {
    match st.pcs[a] {
      case Handler(s, at) =>
        if at.Entered? {
          EnteredSpends(st, a, s, at);
        } else if at.Initiate? {
          InitiateSpends(st, a, s, at);
        } else {
          HandlerSpends(st, a, s, at);
        }
      case Completion(s, held, at) =>
        if at.Deliver? {
          DeliverSpends(st, a, s, held, at);
        } else {
          CompletionSpends(st, a, s, held, at);
        }
      case Starting(s, at) => StartSpends(st, a, s, at);
      case Cancelling(s, at) => CancelSpends(st, a, s, at);
      case CancelFind(id) => FindSpends(st, a, id);
      case Release(_) => RestSpends(st, a);
      case Return => RestSpends(st, a);
      case CancelWantMap(_) => RestSpends(st, a);
      case CancelUnmap => RestSpends(st, a);
    }
  }

  lemma DispatchSpends(st: State, w: nat, t: nat, ec: ErrorCode, buffer: string)
    requires Orderly(st) && Enabled(st, Dispatch(w, t, ec, buffer))
    ensures var st' := Do(st, Dispatch(w, t, ec, buffer));
            Orderly(st') && Measure(st') < Measure(st)
  {
    var st' := Do(st, Dispatch(w, t, ec, buffer));
    TotalWith(st.pcs, Weight, Worker(w), st'.pcs[Worker(w)]);
    TotalWithout(st.ops, PendingWeight, t);
  }

  lemma LeaveSpends(st: State, w: nat)
    requires Orderly(st) && Enabled(st, Leave(w))
    ensures Orderly(Do(st, Leave(w))) && Measure(Do(st, Leave(w))) < Measure(st)
  {
    TotalWith(st.pcs, Weight, Worker(w), Exited);
  }

  lemma CloseSpends(st: State, action: Action)
    requires Orderly(st) && Enabled(st, action) && ByClose(action)
    ensures Orderly(Do(st, action)) && Measure(Do(st, action)) < Measure(st)
  {
  }

  /** What a call adds, itself included. */
  function Cost(action: Action): nat {
    if action.Start? then 29 else if action.Cancel? then 8 else 0
  }

  lemma CallSpends(st: State, action: Action)
    requires Orderly(st) && Enabled(st, action) && (action.Start? || action.Cancel?)
    ensures Orderly(Do(st, action)) && Measure(Do(st, action)) + 1 == Measure(st) + Cost(action)
  {
    var a := if action.Start? then Starter(action.u) else Canceller(action.c);
    TotalWith(st.pcs, Weight, a, Do(st, action).pcs[a]);
  }

  /** Every action but a call leaves less ahead. */
  lemma ActionSpends(st: State, action: Action)
    requires Inv(st) && Orderly(st) && Enabled(st, action)
    ensures Orderly(Do(st, action))
    ensures Measure(Do(st, action)) + 1 <= Measure(st) + Cost(action)
  {
    match action {
      case Start(_, _, _, _) => CallSpends(st, action);
      case Cancel(_, _) => CallSpends(st, action);
      case Step(a) =>
        StepSpends(st, a);
        assert Bounded(ViewOf(st));
        SpendingIsLess(st, Take(st, a), a);
      case Dispatch(w, t, ec, buffer) => DispatchSpends(st, w, t, ec, buffer);
      case Leave(w) => LeaveSpends(st, w);
      case _ => CloseSpends(st, action);
    }
  }

  // -------------------------------------------------------------------------- finite runs

  function CountStarts(actions: seq<Action>): nat {
    if actions == [] then 0
    else CountStarts(actions[..|actions| - 1]) + if actions[|actions| - 1].Start? then 1 else 0
  }

  function CountCancels(actions: seq<Action>): nat {
    if actions == [] then 0
    else CountCancels(actions[..|actions| - 1]) + if actions[|actions| - 1].Cancel? then 1 else 0
  }

  lemma {:induction false} InitTotal(workers: nat)
    ensures Total(Init(workers).pcs, Weight) == workers
    decreases workers
  {
    var pcs := Init(workers).pcs;
    if workers == 0 {
      assert pcs == map[];
    } else {
      InitTotal(workers - 1);
      assert Worker(workers - 1) in WorkerSet(workers);
      assert pcs == Init(workers - 1).pcs[Worker(workers - 1) := InRun];
      TotalWith(Init(workers - 1).pcs, Weight, Worker(workers - 1), InRun);
    }
  }

  lemma InitOrderly(workers: nat)
    ensures Orderly(Init(workers)) && Measure(Init(workers)) == 2 * workers + 2
  {
    InitTotal(workers);
    var none: map<nat, Pending> := map[];
    assert Total(none, PendingWeight) == 0;
  }

  function Costs(actions: seq<Action>): nat {
    if actions == [] then 0
    else Costs(actions[..|actions| - 1]) + Cost(actions[|actions| - 1])
  }

  lemma {:induction false} CostsAreCounts(actions: seq<Action>)
    ensures Costs(actions) == 29 * CountStarts(actions) + 8 * CountCancels(actions)
    decreases |actions|
  {
    if actions != [] {
      CostsAreCounts(actions[..|actions| - 1]);
    }
  }

  lemma CostsOfPrefix(actions: seq<Action>, n: nat)
    requires 0 < n <= |actions|
    ensures Costs(actions[..n]) == Costs(actions[..n - 1]) + Cost(actions[n - 1])
  {
    assert actions[..n][..n - 1] == actions[..n - 1];
  }

  lemma {:induction false} RunSpends(workers: nat, actions: seq<Action>, states: seq<State>, n: nat)
    requires Run(Performs, Init(workers), actions, states) && n <= |actions|
    ensures Orderly(states[n]) && n + Measure(states[n]) <= 2 * workers + 2 + Costs(actions[..n])
    decreases n
  {
    if n == 0 {
      InitOrderly(workers);
    } else {
      RunSpends(workers, actions, states, n - 1);
      RunKeepsInv(workers, actions, states, n - 1);
      assert Performs(states[n - 1], actions[n - 1], states[n]);
      ActionSpends(states[n - 1], actions[n - 1]);
      CostsOfPrefix(actions, n);
    }
  }

  /** Finitely many calls make a finite run: this many steps at most. */
  lemma {:induction false} FiniteCallsFiniteRun(workers: nat, actions: seq<Action>, states: seq<State>)
    requires Run(Performs, Init(workers), actions, states)
    ensures |actions| <= 2 * workers + 2 + 29 * CountStarts(actions) + 8 * CountCancels(actions)
  {
    RunSpends(workers, actions, states, |actions|);
    CostsAreCounts(actions);
    assert actions[..|actions|] == actions;
  }

  // ----------------------------------------------------------------------- how runs end

  /** Nothing can happen but new calls. */
  ghost predicate Still(st: State) {
    forall action :: Enabled(st, action) ==> action.Start? || action.Cancel?
  }

  lemma ReachableOrderly(workers: nat, st: State)
    requires Reachable(workers, st)
    ensures Orderly(st)
  {
    var actions: seq<Action>, states: seq<State> :|
      Run(Performs, Init(workers), actions, states) && states[|actions|] == st;
    RunSpends(workers, actions, states, |actions|);
  }

  /** A worker that is outside the client's code is in `run()` or has left it. */
  lemma WorkerOutside(st: State, w: nat)
    requires Orderly(st) && Worker(w) in st.pcs && !IsInside(st.pcs[Worker(w)])
    ensures st.pcs[Worker(w)].InRun? || st.pcs[Worker(w)].Exited?
  {
    assert InPlace(Worker(w), st.pcs[Worker(w)]);
  }

  lemma OutsideIsNotHandling(pc: PC)
    requires !IsInside(pc)
    ensures !RoleOf(pc).handling
  {
  }

  lemma NobodyBusy(st: State)
    requires forall a :: !Inside(st, a)
    ensures Busy(ViewOf(st)) == {}
  {
    forall a | a in st.pcs ensures !RoleOf(st.pcs[a]).handling {
      assert !Inside(st, a);
      OutsideIsNotHandling(st.pcs[a]);
    }
  }

  /** With nobody inside, outstanding work is pending operations. */
  lemma OnlyOperations(st: State)
    requires Work(ViewOf(st)) && !st.closing.NotClosing? && forall a :: !Inside(st, a)
    ensures st.work == |st.ops|
  {
    NobodyBusy(st);
  }

  /** A worker in `run()` can take an operation or leave. */
  lemma WorkerGoesOn(st: State, w: nat)
    requires Inv(st) && Orderly(st) && st.work == |st.ops|
    requires Worker(w) in st.pcs && st.pcs[Worker(w)] == InRun
    ensures !Still(st)
  {
    if st.stopped {
      assert Enabled(st, Leave(w));
    } else {
      assert st.ops != map[];
      var t :| t in st.ops;
      assert Bounded(ViewOf(st));
      assert Enabled(st, Dispatch(w, t, Aborted, ""));
    }
  }

  /** With nobody inside `Close` goes on, or a worker does. */
  lemma CloseGoesOn(st: State)
    requires Inv(st) && Orderly(st) && st.closing.Joining? && forall a :: !Inside(st, a)
    ensures !Still(st)
  {
    var k := st.closing.k;
    if k == st.workers {
      assert Enabled(st, CloseReturn);
    } else {
      assert Bounded(ViewOf(st)) && Worker(k) in ViewOf(st).roles;
      assert !Inside(st, Worker(k));
      WorkerOutside(st, k);
      if st.pcs[Worker(k)].Exited? {
        assert Enabled(st, Join);
      } else {
        OnlyOperations(st);
        WorkerGoesOn(st, k);
      }
    }
  }

  /**
   A run that cannot go on after `Close` was called has returned from it, or is in the one deadlock there
   is. Together with `FiniteCallsFiniteRun`, `Close` returns in every run without that deadlock.
   */
  lemma {:induction false} EndsClosedOrEmbraced(workers: nat, st: State)
    requires Reachable(workers, st) && Still(st) && !st.closing.NotClosing?
    ensures st.closing.Closed? || exists w, c, s :: Embrace(st, w, c, s)
  {
    ReachableInv(workers, st);
    ReachableOrderly(workers, st);
    if forall w, c, s :: !Embrace(st, w, c, s) {
      forall a ensures !Inside(st, a) {
        if Inside(st, a) {
          var b := NoEmbraceMeansProgress(workers, st, a);
          assert Enabled(st, Step(b));
        }
      }
      if st.closing.Joining? {
        CloseGoesOn(st);
      }
    }
  }

  /**
   So with a worker, no request being started once `Close` is called, and no identifier passed to
   `CancelRequest` twice, a run that cannot go on has returned from `Close` and answered every request.
   */
  lemma {:induction false} EndsAnswered(workers: nat, actions: seq<Action>, states: seq<State>)
    requires Run(Performs, Init(workers), actions, states) && CancelsDiffer(actions)
    requires var st := states[|actions|];
             Still(st) && !st.closing.NotClosing? && workers > 0 && !st.overlap
    ensures var st := states[|actions|];
            && st.closing.Closed? && st.active == map[]
            && forall s :: 0 <= s < |st.sessions| ==> |st.sessions[s].delivered| == 1
  {
    var n := |actions|;
    RunReaches(workers, actions, states, n);
    EndsClosedOrEmbraced(workers, states[n]);
    ReachableInv(workers, states[n]);
    forall w, c, s ensures !Embrace(states[n], w, c, s) {
      if Embrace(states[n], w, c, s) {
        EmbraceIsCycle(states[n], w, c, s);
        DifferentCancelsMeanNoDeadlock(workers, actions, states, n, [w, c]);
      }
    }
    CloseDrains(workers, states[n]);
  }
}
