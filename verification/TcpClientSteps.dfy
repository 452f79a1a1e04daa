/** Every step of the asynchronous TCP client is a legal move, so every run keeps the invariant. */
module TcpClientSteps {
  import opened Errors
  import opened Runs
  import opened Text
  import Streams
  import opened TcpClient
  import opened TcpClientInvariants

  lemma RolesAfterMove(pcs: map<Agent, PC>, a: Agent, pc: PC)
    ensures Roles(pcs[a := pc]) == Roles(pcs)[a := RoleOf(pc)]
  {
    var left, right := Roles(pcs[a := pc]), Roles(pcs)[a := RoleOf(pc)];
    assert left.Keys == right.Keys;
    forall b | b in left ensures left[b] == right[b] {
      if b != a {
        assert pcs[a := pc][b] == pcs[b];
      }
    }
  }

  // ------------------------------------------------- one lemma for each step or kind of step

  lemma EnteredWithErrorIsLegal(st: State, a: Agent, s: SessionId, at: HandlerAt)
    requires a in st.pcs && st.pcs[a] == Handler(s, at) && s < |st.sessions|
    requires at.Entered? && at.ec != Ok
    ensures Legal(ViewOf(st), ViewOf(HandlerStep(st, a, s, at)), a, s, Stay)
  {
    RolesAfterMove(st.pcs, a, HandlerStep(st, a, s, at).pcs[a]);
  }

  lemma EnteredAfterReadIsLegal(st: State, a: Agent, s: SessionId, at: HandlerAt)
    requires a in st.pcs && st.pcs[a] == Handler(s, at) && s < |st.sessions|
    requires at.Entered? && at.ec == Ok && at.op.Read?
    requires at.buffer <= st.sessions[s].peer && LF in at.buffer
    ensures Legal(ViewOf(st), ViewOf(HandlerStep(st, a, s, at)), a, s, Stay)
  {
    RolesAfterMove(st.pcs, a, HandlerStep(st, a, s, at).pcs[a]);
    Streams.FirstLineOfPrefix(at.buffer, st.sessions[s].peer);
  }

  lemma EnteredBeforeReadIsLegal(st: State, a: Agent, s: SessionId, at: HandlerAt)
    requires a in st.pcs && st.pcs[a] == Handler(s, at) && s < |st.sessions|
    requires at.Entered? && at.ec == Ok && !at.op.Read?
    ensures Legal(ViewOf(st), ViewOf(HandlerStep(st, a, s, at)), a, s, Stay)
  {
    RolesAfterMove(st.pcs, a, HandlerStep(st, a, s, at).pcs[a]);
  }

  lemma GuardStepIsLegal(st: State, a: Agent, s: SessionId, at: HandlerAt)
    requires a in st.pcs && st.pcs[a] == Handler(s, at) && s < |st.sessions|
    requires at.LockGuard? || at.UnlockGuard?
    requires at.LockGuard? ==> st.sessions[s].guard == None
    ensures Legal(ViewOf(st), ViewOf(HandlerStep(st, a, s, at)), a, s, Stay)
  {
    RolesAfterMove(st.pcs, a, HandlerStep(st, a, s, at).pcs[a]);
  }

  lemma ReadFlagIsLegal(st: State, a: Agent, s: SessionId, at: HandlerAt)
    requires a in st.pcs && st.pcs[a] == Handler(s, at) && s < |st.sessions|
    requires at.ReadFlag?
    ensures Legal(ViewOf(st), ViewOf(HandlerStep(st, a, s, at)), a, s, Stay)
  {
    RolesAfterMove(st.pcs, a, HandlerStep(st, a, s, at).pcs[a]);
  }

  lemma InitiateIsLegal(st: State, a: Agent, s: SessionId, at: HandlerAt)
    requires a in st.pcs && st.pcs[a] == Handler(s, at) && s < |st.sessions|
    requires at.Initiate?
    ensures Legal(ViewOf(st), ViewOf(HandlerStep(st, a, s, at)), a, s, Launching)
  {
    RolesAfterMove(st.pcs, a, HandlerStep(st, a, s, at).pcs[a]);
  }

  lemma LockMapIsLegal(st: State, a: Agent, s: SessionId, held: bool, at: CompletionAt)
    requires a in st.pcs && st.pcs[a] == Completion(s, held, at) && s < |st.sessions|
    requires at.LockMap?
    requires st.mapOwner == None
    ensures Legal(ViewOf(st), ViewOf(CompletionStep(st, a, s, held, at)), a, s, Stay)
  {
    RolesAfterMove(st.pcs, a, CompletionStep(st, a, s, held, at).pcs[a]);
  }

  lemma UnlockMapIsLegal(st: State, a: Agent, s: SessionId, held: bool, at: CompletionAt)
    requires a in st.pcs && st.pcs[a] == Completion(s, held, at) && s < |st.sessions|
    requires at.UnlockMap?
    ensures Legal(ViewOf(st), ViewOf(CompletionStep(st, a, s, held, at)), a, s, Stay)
  {
    RolesAfterMove(st.pcs, a, CompletionStep(st, a, s, held, at).pcs[a]);
  }

  lemma ShutdownIsLegal(st: State, a: Agent, s: SessionId, held: bool, at: CompletionAt)
    requires a in st.pcs && st.pcs[a] == Completion(s, held, at) && s < |st.sessions|
    requires at.Shutdown?
    ensures Legal(ViewOf(st), ViewOf(CompletionStep(st, a, s, held, at)), a, s, Stay)
  {
    RolesAfterMove(st.pcs, a, CompletionStep(st, a, s, held, at).pcs[a]);
  }

  lemma EraseStepIsLegal(st: State, a: Agent, s: SessionId, held: bool, at: CompletionAt)
    requires a in st.pcs && st.pcs[a] == Completion(s, held, at) && s < |st.sessions|
    requires at.Erase?
    ensures Legal(ViewOf(st), ViewOf(CompletionStep(st, a, s, held, at)), a, s, Stay)
  {
    RolesAfterMove(st.pcs, a, CompletionStep(st, a, s, held, at).pcs[a]);
  }

  lemma DecideStepIsLegal(st: State, a: Agent, s: SessionId, held: bool, at: CompletionAt)
    requires a in st.pcs && st.pcs[a] == Completion(s, held, at) && s < |st.sessions|
    requires at.Decide?
    ensures Legal(ViewOf(st), ViewOf(CompletionStep(st, a, s, held, at)), a, s, Stay)
  {
    RolesAfterMove(st.pcs, a, CompletionStep(st, a, s, held, at).pcs[a]);
  }

  lemma DeliverStepIsLegal(st: State, a: Agent, s: SessionId, held: bool, at: CompletionAt)
    requires a in st.pcs && st.pcs[a] == Completion(s, held, at) && s < |st.sessions|
    requires at.Deliver?
    ensures Legal(ViewOf(st), ViewOf(CompletionStep(st, a, s, held, at)), a, s, Finishing)
  {
    var x := st.sessions[s];
    var x' := x.(delivered := x.delivered + [Delivery(x.id, x.response, at.ec)], place := Finished);
    if held {
      RolesAfterMove(st.pcs, a, Release(s));
    } else {
      RolesAfterMove(st.pcs, a, Return);
    }
    DeliverIsLegal(ViewOf(st), a, s, held, at.ec, x');
  }

  lemma DeliverIsLegal(v: View, a: Agent, s: SessionId, held: bool, ec: ErrorCode, x': Session)
    requires a in v.roles && v.roles[a] == CompletionRole(s, held, Deliver(ec)) && s < |v.sessions|
    requires var x := v.sessions[s];
             x' == x.(delivered := x.delivered + [Delivery(x.id, x.response, ec)], place := Finished)
    ensures var r := RoleOf(if held then Release(s) else Return);
            Legal(v, v.(roles := v.roles[a := r], sessions := v.sessions[s := x']), a, s, Finishing)
  {
  }

  lemma StartMapStepIsLegal(st: State, a: Agent, s: SessionId, at: StartAt)
    requires a in st.pcs && st.pcs[a] == Starting(s, at) && s < |st.sessions|
    requires at.StartLock? || at.StartUnlock?
    requires at.StartLock? ==> st.mapOwner == None
    ensures Legal(ViewOf(st), ViewOf(StartStep(st, a, s, at)), a, s, Stay)
  {
    RolesAfterMove(st.pcs, a, StartStep(st, a, s, at).pcs[a]);
  }

  lemma StartInsertIsLegal(st: State, a: Agent, s: SessionId, at: StartAt)
    requires a in st.pcs && st.pcs[a] == Starting(s, at) && s < |st.sessions|
    requires at.StartInsert?
    ensures Legal(ViewOf(st), ViewOf(StartStep(st, a, s, at)), a, s, Stay)
  {
    RolesAfterMove(st.pcs, a, StartStep(st, a, s, at).pcs[a]);
  }

  lemma StartConnectIsLegal(st: State, a: Agent, s: SessionId, at: StartAt)
    requires a in st.pcs && st.pcs[a] == Starting(s, at) && s < |st.sessions|
    requires at.StartConnect?
    ensures Legal(ViewOf(st), ViewOf(StartStep(st, a, s, at)), a, s, Launching)
  {
    RolesAfterMove(st.pcs, a, StartStep(st, a, s, at).pcs[a]);
  }

  lemma CancelLockIsLegal(st: State, a: Agent, s: SessionId, at: CancelAt)
    requires a in st.pcs && st.pcs[a] == Cancelling(s, at) && s < |st.sessions|
    requires at.CancelLock?
    requires st.sessions[s].guard == None
    ensures Legal(ViewOf(st), ViewOf(CancelStep(st, a, s, at)), a, s, Stay)
  {
    RolesAfterMove(st.pcs, a, CancelStep(st, a, s, at).pcs[a]);
  }

  lemma CancelUnlockIsLegal(st: State, a: Agent, s: SessionId, at: CancelAt)
    requires a in st.pcs && st.pcs[a] == Cancelling(s, at) && s < |st.sessions|
    requires at.CancelUnlock?
    ensures Legal(ViewOf(st), ViewOf(CancelStep(st, a, s, at)), a, s, Stay)
  {
    RolesAfterMove(st.pcs, a, CancelUnmap);
    UnlockIsLegal(ViewOf(st), a, s, st.sessions[s].(guard := None));
  }

  lemma UnlockIsLegal(v: View, a: Agent, s: SessionId, x': Session)
    requires a in v.roles && v.roles[a] == CancelRole(s, CancelUnlock) && s < |v.sessions|
    requires x' == v.sessions[s].(guard := None)
    ensures Legal(v, v.(roles := v.roles[a := RoleOf(CancelUnmap)], sessions := v.sessions[s := x']), a, s, Stay)
  {
  }

  lemma CancelSocketIsLegal(st: State, a: Agent, s: SessionId, at: CancelAt)
    requires a in st.pcs && st.pcs[a] == Cancelling(s, at) && s < |st.sessions|
    requires at.CancelSocket?
    ensures Legal(ViewOf(st), ViewOf(CancelStep(st, a, s, at)), a, s, Stay)
  {
    RolesAfterMove(st.pcs, a, CancelStep(st, a, s, at).pcs[a]);
  }

  lemma CancelSetIsLegal(st: State, a: Agent, s: SessionId, at: CancelAt)
    requires a in st.pcs && st.pcs[a] == Cancelling(s, at) && s < |st.sessions|
    requires at.CancelSet?
    ensures Legal(ViewOf(st), ViewOf(CancelStep(st, a, s, at)), a, s, Stay)
  {
    RolesAfterMove(st.pcs, a, CancelStep(st, a, s, at).pcs[a]);
  }

  lemma CancelFindsIsLegal(st: State, a: Agent, id: RequestId)
    requires a in st.pcs && st.pcs[a] == CancelFind(id)
    requires id in st.active && st.active[id] < |st.sessions| && st.sessions[st.active[id]].id == id
    ensures Legal(ViewOf(st), ViewOf(FindStep(st, a, id)), a, st.active[id], Stay)
  {
    RolesAfterMove(st.pcs, a, Cancelling(st.active[id], CancelLock));
  }

  lemma CancelFindsNothingIsLegal(st: State, a: Agent, id: RequestId)
    requires a in st.pcs && st.pcs[a] == CancelFind(id) && id !in st.active
    ensures Legal(ViewOf(st), ViewOf(FindStep(st, a, id)), a, |st.sessions|, Stay)
  {
    RolesAfterMove(st.pcs, a, CancelUnmap);
  }

  lemma ReleaseIsLegal(st: State, a: Agent)
    requires CanStep(st, a) && st.pcs[a].Release?
    ensures Legal(ViewOf(st), ViewOf(Take(st, a)), a, st.pcs[a].s, Stay)
  {
    RolesAfterMove(st.pcs, a, Take(st, a).pcs[a]);
  }

  lemma ReturnIsLegal(st: State, a: Agent)
    requires CanStep(st, a) && st.pcs[a].Return?
    ensures Legal(ViewOf(st), ViewOf(Take(st, a)), a, |st.sessions|, Stay)
  {
    RolesAfterMove(st.pcs, a, Take(st, a).pcs[a]);
  }

  lemma CancelWantMapIsLegal(st: State, a: Agent)
    requires CanStep(st, a) && st.pcs[a].CancelWantMap?
    ensures Legal(ViewOf(st), ViewOf(Take(st, a)), a, |st.sessions|, Stay)
  {
    RolesAfterMove(st.pcs, a, Take(st, a).pcs[a]);
  }

  lemma CancelUnmapIsLegal(st: State, a: Agent)
    requires CanStep(st, a) && st.pcs[a].CancelUnmap?
    ensures Legal(ViewOf(st), ViewOf(Take(st, a)), a, |st.sessions|, Stay)
  {
    RolesAfterMove(st.pcs, a, Take(st, a).pcs[a]);
  }

  // ------------------------------------------------------------------- every action

  lemma LegalKeepsGood(v: View, v': View, a: Agent, s: SessionId, how: Motion)
    requires Good(v) && Legal(v, v', a, s, how)
    ensures Good(v')
  {
    BoundedKept(v, v', a, s, how);
    MapLockKept(v, v', a, s, how);
    GuardLocksKept(v, v', a, s, how);
    CarriedKept(v, v', a, s, how);
    AwaitedKept(v, v', a, s, how);
    CalledBackKept(v, v', a, s, how);
    MapSoundKept(v, v', a, s, how);
    MapCompleteKept(v, v', a, s, how);
    CancelsSoundKept(v, v', a, s, how);
    FlagsKept(v, v', a, s, how);
    VerdictsKept(v, v', a, s, how);
    ReadsKept(v, v', a, s, how);
    WorkKept(v, v', a, s, how);
  }

  /** What is known of a thread that enters the handler of a successful read. */
  lemma EnteredHasLine(st: State, a: Agent, s: SessionId, at: HandlerAt)
    requires Inv(st) && a in st.pcs && st.pcs[a] == Handler(s, at) && s < |st.sessions|
    requires at.Entered? && at.ec == Ok && at.op.Read?
    ensures at.buffer <= st.sessions[s].peer && LF in at.buffer
  {
    assert ViewOf(st).roles[a] == RoleOf(Handler(s, at));
  }

  lemma HandlerStepIsLegal(st: State, a: Agent, s: SessionId, at: HandlerAt)
    requires Inv(st) && CanStep(st, a) && st.pcs[a] == Handler(s, at)
    ensures Legal(ViewOf(st), ViewOf(HandlerStep(st, a, s, at)), a, s, if at.Initiate? then Launching else Stay)
  {
    match at {
      case Entered(op, ec, _) =>
        if ec != Ok {
          EnteredWithErrorIsLegal(st, a, s, at);
        } else if op.Read? {
          EnteredHasLine(st, a, s, at);
          EnteredAfterReadIsLegal(st, a, s, at);
        } else {
          EnteredBeforeReadIsLegal(st, a, s, at);
        }
      case ReadFlag(_) => ReadFlagIsLegal(st, a, s, at);
      case Initiate(_) => InitiateIsLegal(st, a, s, at);
      case _ => GuardStepIsLegal(st, a, s, at);
    }
  }

  lemma CompletionStepIsLegal(st: State, a: Agent, s: SessionId, held: bool, at: CompletionAt)
    requires CanStep(st, a) && st.pcs[a] == Completion(s, held, at)
    ensures Legal(ViewOf(st), ViewOf(CompletionStep(st, a, s, held, at)), a, s, if at.Deliver? then Finishing else Stay)
  {
    match at {
      case Shutdown => ShutdownIsLegal(st, a, s, held, at);
      case Erase => EraseStepIsLegal(st, a, s, held, at);
      case Decide => DecideStepIsLegal(st, a, s, held, at);
      case Deliver(_) => DeliverStepIsLegal(st, a, s, held, at);
      case LockMap => LockMapIsLegal(st, a, s, held, at);
      case UnlockMap => UnlockMapIsLegal(st, a, s, held, at);
    }
  }

  lemma StartStepIsLegal(st: State, a: Agent, s: SessionId, at: StartAt)
    requires CanStep(st, a) && st.pcs[a] == Starting(s, at)
    ensures Legal(ViewOf(st), ViewOf(StartStep(st, a, s, at)), a, s, if at.StartConnect? then Launching else Stay)
  {
    match at {
      case StartInsert => StartInsertIsLegal(st, a, s, at);
      case StartConnect => StartConnectIsLegal(st, a, s, at);
      case _ => StartMapStepIsLegal(st, a, s, at);
    }
  }

  /** A session found in the map is there under the identifier that was looked up. */
  lemma FoundUnderId(v: View, id: RequestId)
    requires MapSound(v) && id in v.active
    ensures v.active[id] < |v.sessions| && v.sessions[v.active[id]].id == id
  {
  }

  lemma CancelStepIsLegal(st: State, a: Agent, s: SessionId, at: CancelAt)
    requires CanStep(st, a) && st.pcs[a] == Cancelling(s, at)
    ensures Legal(ViewOf(st), ViewOf(CancelStep(st, a, s, at)), a, s, Stay)
  {
    match at {
      case CancelLock => CancelLockIsLegal(st, a, s, at);
      case CancelSet => CancelSetIsLegal(st, a, s, at);
      case CancelSocket => CancelSocketIsLegal(st, a, s, at);
      case CancelUnlock => CancelUnlockIsLegal(st, a, s, at);
    }
  }

  lemma HandlerTakeIsLegal(st: State, a: Agent) returns (s: SessionId, how: Motion)
    requires Inv(st) && CanStep(st, a) && st.pcs[a].Handler?
    ensures Legal(ViewOf(st), ViewOf(Take(st, a)), a, s, how)
    ensures !how.Creating? && !how.Dispatching?
  {
    s := st.pcs[a].s;
    how := if st.pcs[a].hat.Initiate? then Launching else Stay;
    HandlerStepIsLegal(st, a, s, st.pcs[a].hat);
  }

  lemma CompletionTakeIsLegal(st: State, a: Agent) returns (s: SessionId, how: Motion)
    requires CanStep(st, a) && st.pcs[a].Completion?
    ensures Legal(ViewOf(st), ViewOf(Take(st, a)), a, s, how)
    ensures !how.Creating? && !how.Dispatching?
  {
    s := st.pcs[a].s;
    how := if st.pcs[a].cat.Deliver? then Finishing else Stay;
    CompletionStepIsLegal(st, a, s, st.pcs[a].held, st.pcs[a].cat);
  }

  /** The subject and the motion of a worker's next step, which is legal. */
  lemma WorkerStepIsLegal(st: State, a: Agent) returns (s: SessionId, how: Motion)
    requires Inv(st) && CanStep(st, a) && RoleOf(st.pcs[a]).handling
    ensures Legal(ViewOf(st), ViewOf(Take(st, a)), a, s, how)
    ensures !how.Creating? && !how.Dispatching?
  {
    how := Stay;
    s := |st.sessions|;
    match st.pcs[a] {
      case Handler(_, _) => s, how := HandlerTakeIsLegal(st, a);
      case Completion(_, _, _) => s, how := CompletionTakeIsLegal(st, a);
      case Release(s') =>
        ReleaseIsLegal(st, a);
        s := s';
      case Return =>
        ReturnIsLegal(st, a);
    }
  }

  lemma StartTakeIsLegal(st: State, a: Agent) returns (s: SessionId, how: Motion)
    requires CanStep(st, a) && st.pcs[a].Starting?
    ensures Legal(ViewOf(st), ViewOf(Take(st, a)), a, s, how)
    ensures !how.Creating? && !how.Dispatching?
  {
    s := st.pcs[a].s;
    how := if st.pcs[a].sat.StartConnect? then Launching else Stay;
    StartStepIsLegal(st, a, s, st.pcs[a].sat);
  }

  lemma FindTakeIsLegal(st: State, a: Agent) returns (s: SessionId)
    requires Inv(st) && CanStep(st, a) && st.pcs[a].CancelFind?
    ensures Legal(ViewOf(st), ViewOf(Take(st, a)), a, s, Stay)
  {
    var id := st.pcs[a].id;
    if id in st.active {
      FoundUnderId(ViewOf(st), id);
      CancelFindsIsLegal(st, a, id);
      s := st.active[id];
    } else {
      CancelFindsNothingIsLegal(st, a, id);
      s := |st.sessions|;
    }
  }

  /** The subject and the motion of a caller's next step, which is legal. */
  lemma CallerStepIsLegal(st: State, a: Agent) returns (s: SessionId, how: Motion)
    requires Inv(st) && CanStep(st, a) && !RoleOf(st.pcs[a]).handling
    ensures Legal(ViewOf(st), ViewOf(Take(st, a)), a, s, how)
    ensures !how.Creating? && !how.Dispatching?
  {
    how := Stay;
    s := |st.sessions|;
    match st.pcs[a] {
      case Starting(_, _) => s, how := StartTakeIsLegal(st, a);
      case CancelWantMap(_) => CancelWantMapIsLegal(st, a);
      case CancelFind(_) => s := FindTakeIsLegal(st, a);
      case Cancelling(s', at) =>
        CancelStepIsLegal(st, a, s', at);
        s := s';
      case CancelUnmap => CancelUnmapIsLegal(st, a);
    }
  }

  lemma StepIsLegal(st: State, a: Agent) returns (s: SessionId, how: Motion)
    requires Inv(st) && CanStep(st, a)
    ensures Legal(ViewOf(st), ViewOf(Take(st, a)), a, s, how)
    ensures !how.Creating? && !how.Dispatching?
  {
    if RoleOf(st.pcs[a]).handling {
      s, how := WorkerStepIsLegal(st, a);
    } else {
      s, how := CallerStepIsLegal(st, a);
    }
  }

  lemma StartIsLegal(st: State, u: nat, id: RequestId, duration: nat, peer: string)
    requires Enabled(st, Start(u, id, duration, peer))
    ensures Legal(ViewOf(st), ViewOf(Do(st, Start(u, id, duration, peer))), Starter(u), |st.sessions|, Creating)
  {
    RolesAfterMove(st.pcs, Starter(u), Starting(|st.sessions|, StartLock));
  }

  lemma CancelIsLegal(st: State, c: nat, id: RequestId)
    requires Enabled(st, Cancel(c, id))
    ensures Legal(ViewOf(st), ViewOf(Do(st, Cancel(c, id))), Canceller(c), |st.sessions|, Stay)
  {
    RolesAfterMove(st.pcs, Canceller(c), CancelWantMap(id));
  }

  lemma LeaveIsLegal(st: State, w: nat)
    requires Enabled(st, Leave(w))
    ensures Legal(ViewOf(st), ViewOf(Do(st, Leave(w))), Worker(w), |st.sessions|, Stay)
  {
    RolesAfterMove(st.pcs, Worker(w), Exited);
  }

  lemma DispatchIsLegal(st: State, w: nat, t: nat, ec: ErrorCode, buffer: string)
    requires Enabled(st, Dispatch(w, t, ec, buffer))
    ensures Legal(ViewOf(st), ViewOf(Do(st, Dispatch(w, t, ec, buffer))), Worker(w), st.ops[t].s, Dispatching(t))
  {
    RolesAfterMove(st.pcs, Worker(w), Handler(st.ops[t].s, Entered(st.ops[t].op, ec, buffer)));
  }

  lemma NobodyStarting(st: State)
    ensures SomeStarting(st) <==> AnyStarting(ViewOf(st))
  {
    if SomeStarting(st) {
      var a :| a in st.pcs && RoleOf(st.pcs[a]).starting;
      assert ViewOf(st).roles[a].starting;
    }
    if AnyStarting(ViewOf(st)) {
      var a :| a in ViewOf(st).roles && ViewOf(st).roles[a].starting;
      assert RoleOf(st.pcs[a]).starting;
    }
  }

  lemma DropGuardKeepsWork(st: State)
    requires Work(ViewOf(st)) && Enabled(st, DropGuard)
    ensures Work(ViewOf(Do(st, DropGuard)))
  {
    NobodyStarting(st);
    assert Busy(ViewOf(Do(st, DropGuard))) == Busy(ViewOf(st));
  }

  lemma JoinKeepsWork(st: State)
    requires Work(ViewOf(st)) && Enabled(st, Join)
    ensures Work(ViewOf(Do(st, Join)))
  {
    var v, v' := ViewOf(st), ViewOf(Do(st, Join));
    assert Busy(v') == Busy(v) && (AnyStarting(v') <==> AnyStarting(v));
    assert forall w :: HasLeft(v, w) <==> HasLeft(v', w);
    assert v.roles[Worker(st.closing.k)] == RoleOf(st.pcs[Worker(st.closing.k)]);
    assert HasLeft(v, st.closing.k);
  }

  lemma CloseReturnKeepsWork(st: State)
    requires Work(ViewOf(st)) && Enabled(st, CloseReturn)
    ensures Work(ViewOf(Do(st, CloseReturn)))
  {
    var v, v' := ViewOf(st), ViewOf(Do(st, CloseReturn));
    assert Busy(v') == Busy(v) && (AnyStarting(v') <==> AnyStarting(v));
    assert forall w :: HasLeft(v, w) <==> HasLeft(v', w);
  }

  /** The steps of `Close` touch the work count and its own progress only. */
  lemma CloseKeepsWork(st: State, action: Action)
    requires Work(ViewOf(st)) && Enabled(st, action)
    requires ByClose(action)
    ensures Work(ViewOf(Do(st, action)))
  {
    match action {
      case DropGuard => DropGuardKeepsWork(st);
      case Join => JoinKeepsWork(st);
      case CloseReturn => CloseReturnKeepsWork(st);
    }
  }

  lemma CloseKeepsRest(v: View, v': View)
    requires Good(v) && Work(v')
    requires v'.workers == v.workers && v'.roles == v.roles && v'.sessions == v.sessions && v'.ops == v.ops
    requires v'.nextOp == v.nextOp && v'.active == v.active && v'.mapOwner == v.mapOwner
    ensures Good(v')
  {
    assert forall s :: 0 <= s < |v.sessions| ==> (Listed(v, s) <==> Listed(v', s));
    assert forall s :: 0 <= s < |v.sessions| ==> (InMap(v, s) <==> InMap(v', s));
  }

  predicate ByClose(action: Action) {
    action.DropGuard? || action.Join? || action.CloseReturn?
  }

  /** Every action but `Close`'s is a legal move of some thread. */
  lemma ActionIsLegal(st: State, action: Action) returns (a: Agent, s: SessionId, how: Motion)
    requires Inv(st) && Enabled(st, action) && !ByClose(action)
    ensures Legal(ViewOf(st), ViewOf(Do(st, action)), a, s, how)
    ensures how.Creating? <==> action.Start?
  {
    match action {
      case Start(u, id, duration, peer) =>
        StartIsLegal(st, u, id, duration, peer);
        a, s, how := Starter(u), |st.sessions|, Creating;
      case Cancel(c, id) =>
        CancelIsLegal(st, c, id);
        a, s, how := Canceller(c), |st.sessions|, Stay;
      case Step(a') =>
        s, how := StepIsLegal(st, a');
        a := a';
      case Dispatch(w, t, ec, buffer) =>
        DispatchIsLegal(st, w, t, ec, buffer);
        a, s, how := Worker(w), st.ops[t].s, Dispatching(t);
      case Leave(w) =>
        LeaveIsLegal(st, w);
        a, s, how := Worker(w), |st.sessions|, Stay;
    }
  }

  lemma CloseKeepsInv(st: State, action: Action)
    requires Inv(st) && Enabled(st, action) && ByClose(action)
    ensures Inv(Do(st, action))
  {
    CloseKeepsWork(st, action);
    CloseKeepsRest(ViewOf(st), ViewOf(Do(st, action)));
  }

  lemma ActionKeepsInv(st: State, action: Action)
    requires Inv(st) && Enabled(st, action)
    ensures Inv(Do(st, action))
  {
    if ByClose(action) {
      CloseKeepsInv(st, action);
    } else {
      var a, s, how := ActionIsLegal(st, action);
      LegalKeepsGood(ViewOf(st), ViewOf(Do(st, action)), a, s, how);
    }
  }

  lemma InitInv(workers: nat)
    ensures Inv(Init(workers))
  {
    var v := ViewOf(Init(workers));
    assert forall w :: 0 <= w < workers ==> Worker(w) in WorkerSet(workers);
    assert forall a :: a in v.roles ==> v.roles[a] == IDLE;
    assert Busy(v) == {};
  }

  /** Every step keeps the invariant, and nothing else is needed of it here. */
  lemma {:induction false} StepsKeepInv()
    ensures forall st, action, st' :: Inv(st) && Performs(st, action, st') ==> Inv(st')
  {
    forall st, action, st' | Inv(st) && Performs(st, action, st') ensures Inv(st') {
      ActionKeepsInv(st, action);
    }
  }

  /** The invariant holds in every state of every run. */
  lemma {:induction false} RunKeepsInv(workers: nat, actions: seq<Action>, states: seq<State>, n: nat)
    requires n <= |actions| && Run(Performs, Init(workers), actions, states)
    ensures Inv(states[n])
  {
    InitInv(workers);
    StepsKeepInv();
    RunKeeps(Performs, Inv, actions, states, n);
  }

  /** So it holds in every reachable state. */
  lemma {:induction false} ReachableInv(workers: nat, st: State)
    requires Reachable(workers, st)
    ensures Inv(st)
  {
    InitInv(workers);
    StepsKeepInv();
    LeadsKeeps(Performs, Inv, Init(workers), st);
  }
}
