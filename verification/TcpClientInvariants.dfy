/**
 What every step of the asynchronous TCP client keeps. The invariant speaks of the threads' roles; a
 step changes one thread's role and at most one session, and `Legal` lists the few ways it may do so.
 */
module TcpClientInvariants {
  import opened Errors
  import opened Text
  import Streams
  import opened TcpClient

  // ---------------------------------------------------------------------- the invariant

  /** A state with every thread's position replaced by its role. */
  datatype View = View(
    workers: nat,
    roles: map<Agent, Role>,
    sessions: seq<Session>,
    ops: map<nat, Pending>,
    nextOp: nat,
    active: map<RequestId, SessionId>,
    mapOwner: Option<Agent>,
    work: nat,
    guardHeld: bool,
    stopped: bool,
    closing: Closing,
    overlap: bool)

  ghost function Roles(pcs: map<Agent, PC>): map<Agent, Role> {
    map a | a in pcs :: RoleOf(pcs[a])
  }

  ghost function ViewOf(st: State): View {
    View(st.workers, Roles(st.pcs), st.sessions, st.ops, st.nextOp, st.active, st.mapOwner, st.work,
         st.guardHeld, st.stopped, st.closing, st.overlap)
  }

  /** Threads, operations and the map only speak of sessions that exist. */
  ghost predicate Bounded(v: View) {
    && (forall a :: a in v.roles ==>
          && v.roles[a].WellFormed()
          && (v.roles[a].carries.Some? ==> v.roles[a].carries.value < |v.sessions|)
          && (v.roles[a].guards.Some? ==> v.roles[a].guards.value < |v.sessions|)
          && (v.roles[a].cancels.Some? ==> v.roles[a].cancels.value < |v.sessions|))
    && (forall t :: t in v.ops ==> t < v.nextOp && v.ops[t].s < |v.sessions|)
    && (forall id :: id in v.active ==> v.active[id] < |v.sessions|)
    && (forall w :: 0 <= w < v.workers ==> Worker(w) in v.roles)
  }

  /** The map lock's owner is the one thread inside its critical section. */
  ghost predicate MapLock(v: View) {
    && (forall a :: a in v.roles ==> (v.roles[a].inMap <==> v.mapOwner == Some(a)))
    && (v.mapOwner.Some? ==> v.mapOwner.value in v.roles)
  }

  /** A cancel guard's owner is the one thread that holds it. */
  ghost predicate GuardLocks(v: View) {
    && (forall a, s :: a in v.roles && 0 <= s < |v.sessions| ==>
          (v.roles[a].guards == Some(s) <==> v.sessions[s].guard == Some(a)))
    && (forall s :: 0 <= s < |v.sessions| && v.sessions[s].guard.Some? ==> v.sessions[s].guard.value in v.roles)
  }

  /** A session is at the one thread that carries it. */
  ghost predicate Carried(v: View) {
    && (forall a, s :: a in v.roles && 0 <= s < |v.sessions| ==>
          (v.roles[a].carries == Some(s) <==> v.sessions[s].place == AtAgent(a)))
    && (forall s :: 0 <= s < |v.sessions| && v.sessions[s].place.AtAgent? ==> v.sessions[s].place.a in v.roles)
  }

  /** Or it waits for the one operation that is pending for it. */
  ghost predicate Awaited(v: View) {
    && (forall t, s :: t in v.ops && 0 <= s < |v.sessions| ==>
          (v.ops[t].s == s <==> v.sessions[s].place == InOperation(t)))
    && (forall s :: 0 <= s < |v.sessions| && v.sessions[s].place.InOperation? ==> v.sessions[s].place.t in v.ops)
  }

  ghost predicate CalledBack(v: View) {
    forall s :: 0 <= s < |v.sessions| ==>
      |v.sessions[s].delivered| == if v.sessions[s].place.Finished? then 1 else 0
  }

  /** Every session is in exactly one place. */
  ghost predicate Placed(v: View) {
    Carried(v) && Awaited(v) && CalledBack(v)
  }

  /** The session has been put in the map and is not yet past its own erase. */
  ghost predicate Listed(v: View, s: SessionId)
    requires s < |v.sessions|
  {
    match v.sessions[s].place
    case Finished => false
    case InOperation(_) => true
    case AtAgent(a) => a in v.roles && v.roles[a].listed
  }

  /** The map holds listed sessions only, under their identifiers. */
  ghost predicate MapSound(v: View) {
    forall id :: id in v.active ==>
      v.active[id] < |v.sessions| && v.sessions[v.active[id]].id == id && Listed(v, v.active[id])
  }

  ghost predicate DistinctIds(sessions: seq<Session>) {
    forall s, s' :: 0 <= s < s' < |sessions| ==> sessions[s].id != sessions[s'].id
  }

  ghost predicate InMap(v: View, s: SessionId)
    requires s < |v.sessions|
  {
    v.sessions[s].id in v.active && v.active[v.sessions[s].id] == s
  }

  /** With distinct identifiers the map holds every listed session. */
  ghost predicate MapComplete(v: View) {
    DistinctIds(v.sessions) ==> forall s :: 0 <= s < |v.sessions| && Listed(v, s) ==> InMap(v, s)
  }

  /** A session that is being cancelled is in the map, and its canceller is recorded as a finder. */
  ghost predicate CancelsSound(v: View) {
    forall a :: a in v.roles && v.roles[a].cancels.Some? && v.roles[a].cancels.value < |v.sessions| ==>
      InMap(v, v.roles[a].cancels.value) && a in v.sessions[v.roles[a].cancels.value].finds
  }

  /** The flag is set exactly when some finder has set it; every finder has or is about to. */
  ghost predicate Flags(v: View) {
    forall s :: 0 <= s < |v.sessions| ==>
      var session := v.sessions[s];
      && (session.cancelled <==> session.flaggedBy != {})
      && session.flaggedBy <= session.finds
      && (forall c :: c in session.finds ==> c in v.roles && v.roles[c].spent)
      && (forall c :: c in session.finds && c in v.roles ==> (c !in session.flaggedBy <==> v.roles[c].flags == Some(s)))
  }

  /** What the callback reports, in terms of who found the session. */
  ghost function Reported(session: Session): ErrorCode {
    if session.ec == Ok && session.finds != {} then Aborted else session.ec
  }

  /** The response is the first line of what the peer sent, which has a line break. */
  ghost predicate Answered(session: Session) {
    LF in session.peer && session.response == Streams.FirstLine(session.peer)
  }

  /** A completing session was seen cancelled, or failed, or has its answer. */
  ghost predicate Settled(session: Session, seen: bool) {
    (seen && session.cancelled) || session.ec != Ok || Answered(session)
  }

  /** What holds of a completing thread and the session it carries. */
  ghost predicate ThreadVerdict(role: Role, session: Session) {
    && (role.guards.Some? ==> session.cancelled)
    && Settled(session, role.guards.Some?)
    && (role.verdict.Some? ==> role.verdict.value == Reported(session))
  }

  /** What holds of a session that has been called back. */
  ghost predicate FinalVerdict(session: Session)
    requires |session.delivered| == 1
  {
    && session.delivered[0] == Delivery(session.id, session.response, Reported(session))
    && Settled(session, true)
  }

  ghost predicate Verdicts(v: View) {
    && (forall a :: a in v.roles && v.roles[a].completing && v.roles[a].carries.Some?
                    && v.roles[a].carries.value < |v.sessions| ==>
          ThreadVerdict(v.roles[a], v.sessions[v.roles[a].carries.value]))
    && (forall s :: 0 <= s < |v.sessions| && v.sessions[s].place.Finished? && |v.sessions[s].delivered| == 1 ==>
          FinalVerdict(v.sessions[s]))
  }

  /** A successful read has received a prefix of the peer's bytes with a line break in it. */
  ghost predicate Reads(v: View) {
    forall a :: a in v.roles && v.roles[a].got.Some? && v.roles[a].carries.Some?
                && v.roles[a].carries.value < |v.sessions| ==>
      v.roles[a].got.value <= v.sessions[v.roles[a].carries.value].peer && LF in v.roles[a].got.value
  }

  ghost function Busy(v: View): set<Agent> {
    set a | a in v.roles && v.roles[a].handling
  }

  ghost predicate AnyStarting(v: View) {
    exists a :: a in v.roles && v.roles[a].starting
  }

  ghost predicate HasLeft(v: View, w: nat) {
    Worker(w) in v.roles && v.roles[Worker(w)].exited
  }

  /** The work count is exact; it reaches zero only after `Close`, and only then do workers leave. */
  ghost predicate Work(v: View) {
    && v.work == (if v.guardHeld then 1 else 0) + |v.ops| + |Busy(v)|
    && (v.guardHeld <==> v.closing.NotClosing?)
    && (v.stopped ==> !v.guardHeld)
    && (!v.overlap && !v.closing.NotClosing? ==> !AnyStarting(v))
    && (!v.overlap && v.stopped ==> v.work == 0)
    && (forall a :: a in v.roles && v.roles[a].exited ==> v.stopped)
    && (v.closing.Joining? ==> v.closing.k <= v.workers && forall w :: 0 <= w < v.closing.k ==> HasLeft(v, w))
    && (v.closing.Closed? ==> forall w :: 0 <= w < v.workers ==> HasLeft(v, w))
  }

  ghost predicate Good(v: View) {
    && Bounded(v) && MapLock(v) && GuardLocks(v) && Placed(v) && MapSound(v) && MapComplete(v)
    && CancelsSound(v) && Flags(v) && Verdicts(v) && Reads(v) && Work(v)
  }

  ghost predicate Inv(st: State) {
    Good(ViewOf(st))
  }

  // ------------------------------------------------------------ the ways a thread may move

  ghost function Before(v: View, a: Agent): Role {
    if a in v.roles then v.roles[a] else IDLE
  }

  const BLANK := Session(0, "", "", Ok, "", false, None, {}, {}, [], Finished)

  /** The session a step is about, or a blank one when it is about none. */
  ghost function Subject(sessions: seq<Session>, s: SessionId): Session {
    if s < |sessions| then sessions[s] else BLANK
  }

  /** How the session a step is about travels. */
  datatype Motion = Stay | Creating | Launching | Finishing | Dispatching(t: nat)

  ghost predicate SessionMove(v: View, v': View, s: SessionId, how: Motion) {
    if how.Creating? then
      && s == |v.sessions| && |v'.sessions| == s + 1 && v'.sessions == v.sessions + [v'.sessions[s]]
      && v'.overlap == (v.overlap || !v.closing.NotClosing?)
    else
      && v'.overlap == v.overlap && |v'.sessions| == |v.sessions|
      && if s < |v.sessions|
         then && v'.sessions == v.sessions[s := v'.sessions[s]]
              && v'.sessions[s].id == v.sessions[s].id && v'.sessions[s].peer == v.sessions[s].peer
              && v'.sessions[s].request == v.sessions[s].request
         else v'.sessions == v.sessions
  }

  ghost predicate About(o: Option<SessionId>, s: SessionId, n: nat) {
    o.Some? ==> o.value == s < n
  }

  /** Thread `a` moves; no other thread does, and no session but `s` changes. */
  ghost predicate Moves(v: View, v': View, a: Agent, s: SessionId, how: Motion) {
    && a in v'.roles && v'.roles == v.roles[a := v'.roles[a]]
    && v'.workers == v.workers && v'.closing == v.closing && v'.guardHeld == v.guardHeld
    && SessionMove(v, v', s, how)
    && var r := v'.roles[a];
       && r.WellFormed()
       && About(r.carries, s, |v'.sessions|) && About(r.guards, s, |v'.sessions|)
       && About(r.cancels, s, |v'.sessions|)
  }

  ghost predicate MapMove(p: Role, r: Role, owner: Option<Agent>, owner': Option<Agent>, a: Agent) {
    if p.inMap == r.inMap then owner' == owner
    else if r.inMap then owner == None && owner' == Some(a)
    else owner' == None
  }

  ghost predicate GuardMove(p: Role, r: Role, x: Session, x': Session, a: Agent, s: SessionId) {
    || (p.guards == r.guards && x'.guard == x.guard)
    || (p.guards == None && r.guards == Some(s) && x.guard == None && x'.guard == Some(a))
    || (p.guards == Some(s) && r.guards == None && x'.guard == None)
  }

  ghost predicate PlaceMove(v: View, v': View, p: Role, r: Role, x: Session, x': Session,
                            a: Agent, s: SessionId, how: Motion) {
    match how
    case Stay =>
      && p.carries == r.carries && x'.place == x.place && x'.delivered == x.delivered
      && v'.ops == v.ops && v'.nextOp == v.nextOp
    case Creating =>
      && p.carries == None && r.carries == Some(s)
      && x'.place == AtAgent(a) && x'.delivered == []
      && v'.ops == v.ops && v'.nextOp == v.nextOp
    case Launching =>
      && p.carries == Some(s) && r.carries == None
      && x'.place == InOperation(v.nextOp) && x'.delivered == x.delivered
      && v'.nextOp == v.nextOp + 1 && v.nextOp in v'.ops && v'.ops == v.ops[v.nextOp := v'.ops[v.nextOp]]
      && v'.ops[v.nextOp].s == s
    case Finishing =>
      && p.carries == Some(s) && r.carries == None && p.verdict.Some?
      && x'.place == Finished
      && x'.delivered == x.delivered + [Delivery(x.id, x.response, p.verdict.value)]
      && v'.ops == v.ops && v'.nextOp == v.nextOp
    case Dispatching(t) =>
      && p.carries == None && r.carries == Some(s)
      && t in v.ops && v.ops[t].s == s && v'.ops == v.ops - {t} && v'.nextOp == v.nextOp
      && x'.place == AtAgent(a) && x'.delivered == x.delivered
  }

  /** Whether the carried session is listed changes only together with the map, under its lock. */
  ghost predicate ListMove(v: View, v': View, p: Role, r: Role, id: RequestId, s: SessionId, how: Motion) {
    match how
    case Stay =>
      if p.carries.None? || p.listed == r.listed then v'.active == v.active
      else p.inMap && v'.active == if r.listed then v.active[id := s] else v.active - {id}
    case Creating => !r.listed && v'.active == v.active
    case Launching => p.listed && v'.active == v.active
    case Finishing => !p.listed && v'.active == v.active
    case Dispatching(_) => r.listed && v'.active == v.active
  }

  /** A finder is recorded when it finds the session in the map, and again when it sets the flag. */
  ghost predicate FlagMove(v: View, p: Role, r: Role, x: Session, x': Session, a: Agent, s: SessionId, how: Motion) {
    && (p.spent ==> r.spent)
    && if how.Creating? then
         p.flags == r.flags && r.cancels == None && x'.finds == {} && x'.flaggedBy == {} && !x'.cancelled
       else if p.flags == r.flags then
         && x'.finds == x.finds && x'.flaggedBy == x.flaggedBy && x'.cancelled == x.cancelled
         && (r.cancels.Some? ==> p.cancels == r.cancels)
       else if r.flags.Some? then
         && p.flags == None && r.flags == Some(s) && !p.spent && r.spent && p.inMap
         && x.id in v.active && v.active[x.id] == s
         && x'.finds == x.finds + {a} && x'.flaggedBy == x.flaggedBy && x'.cancelled == x.cancelled
       else
         && p.flags == Some(s) && (r.cancels.Some? ==> p.cancels == r.cancels)
         && x'.finds == x.finds && x'.flaggedBy == x.flaggedBy + {a} && x'.cancelled
  }

  /** How a session is settled: its error and response are written once, before it completes. */
  ghost predicate VerdictMove(p: Role, r: Role, x: Session, x': Session, s: SessionId, how: Motion) {
    && (how.Creating? || (x'.ec == x.ec && x'.response == x.response)
        || (p.carries == Some(s) && !p.completing && r.completing))
    && (r.completing && !p.completing ==>
          p.carries == Some(s) && how == Stay && r.verdict == None
          && (r.guards.Some? ==> x'.cancelled) && Settled(x', r.guards.Some?))
    && (r.completing && p.completing ==>
          how == Stay && r.guards == p.guards
          && (r.verdict == p.verdict || (!p.listed && r.verdict == Some(Verdict(x)))))
  }

  ghost predicate ReadMove(p: Role, r: Role, x: Session) {
    r.got.Some? ==> r.got.value <= x.peer && LF in r.got.value
  }

  /** The work count follows operations and handlers; the last unit stops the workers for good. */
  ghost predicate WorkMove(v: View, v': View, p: Role, r: Role, how: Motion) {
    && (r.starting ==> p.starting || how.Creating?)
    && (r.exited ==> v.stopped)
    && (p.exited ==> r.exited)
    && match how
       case Launching =>
         && v'.work == v.work + 1 && v'.stopped == v.stopped && p.handling == r.handling
         && (p.handling || p.starting)
       case Dispatching(_) =>
         v'.work == v.work && v'.stopped == v.stopped && !p.handling && r.handling
       case _ =>
         if p.handling == r.handling then v'.work == v.work && v'.stopped == v.stopped
         else p.handling && 0 < v.work && v'.work == v.work - 1 && v'.stopped == (v.stopped || v.work == 1)
  }

  ghost predicate Legal(v: View, v': View, a: Agent, s: SessionId, how: Motion) {
    Moves(v, v', a, s, how) &&
    var p, r := Before(v, a), v'.roles[a];
    var x, x' := Subject(v.sessions, s), Subject(v'.sessions, s);
    && MapMove(p, r, v.mapOwner, v'.mapOwner, a)
    && GuardMove(p, r, x, x', a, s)
    && PlaceMove(v, v', p, r, x, x', a, s, how)
    && ListMove(v, v', p, r, x.id, s, how)
    && FlagMove(v, p, r, x, x', a, s, how)
    && VerdictMove(p, r, x, x', s, how)
    && ReadMove(p, r, x)
    && WorkMove(v, v', p, r, how)
  }

  // ------------------------------------------------- a legal move keeps each part of the invariant

  lemma BoundedKept(v: View, v': View, a: Agent, s: SessionId, how: Motion)
    requires Moves(v, v', a, s, how) && Bounded(v)
    requires var p, r := Before(v, a), v'.roles[a];
             var x, x' := Subject(v.sessions, s), Subject(v'.sessions, s);
             PlaceMove(v, v', p, r, x, x', a, s, how) && ListMove(v, v', p, r, x.id, s, how)
    ensures Bounded(v')
  {
  }

  lemma MapLockKept(v: View, v': View, a: Agent, s: SessionId, how: Motion)
    requires Moves(v, v', a, s, how) && MapLock(v)
    requires var p, r := Before(v, a), v'.roles[a];
             var x, x' := Subject(v.sessions, s), Subject(v'.sessions, s);
             MapMove(p, r, v.mapOwner, v'.mapOwner, a)
    ensures MapLock(v')
  {
  }

  lemma GuardLocksKept(v: View, v': View, a: Agent, s: SessionId, how: Motion)
    requires Moves(v, v', a, s, how) && Bounded(v) && GuardLocks(v)
    requires var p, r := Before(v, a), v'.roles[a];
             var x, x' := Subject(v.sessions, s), Subject(v'.sessions, s);
             GuardMove(p, r, x, x', a, s)
    ensures GuardLocks(v')
  {
  }

  lemma CarriedKept(v: View, v': View, a: Agent, s: SessionId, how: Motion)
    requires Moves(v, v', a, s, how) && Bounded(v) && Placed(v)
    requires PlaceMove(v, v', Before(v, a), v'.roles[a], Subject(v.sessions, s), Subject(v'.sessions, s), a, s, how)
    ensures Carried(v')
  {
    forall b, t | b in v'.roles && 0 <= t < |v'.sessions|
      ensures v'.roles[b].carries == Some(t) <==> v'.sessions[t].place == AtAgent(b)
    {
      CarriesKept(v, v', a, s, how, b, t);
    }
  }

  lemma CarriesKept(v: View, v': View, a: Agent, s: SessionId, how: Motion, b: Agent, t: SessionId)
    requires Moves(v, v', a, s, how) && Bounded(v) && Placed(v)
    requires PlaceMove(v, v', Before(v, a), v'.roles[a], Subject(v.sessions, s), Subject(v'.sessions, s), a, s, how)
    requires b in v'.roles && t < |v'.sessions|
    ensures v'.roles[b].carries == Some(t) <==> v'.sessions[t].place == AtAgent(b)
  {
  }

  lemma AwaitedKept(v: View, v': View, a: Agent, s: SessionId, how: Motion)
    requires Moves(v, v', a, s, how) && Bounded(v) && Placed(v)
    requires PlaceMove(v, v', Before(v, a), v'.roles[a], Subject(v.sessions, s), Subject(v'.sessions, s), a, s, how)
    ensures Awaited(v')
  {
    forall o, t | o in v'.ops && 0 <= t < |v'.sessions|
      ensures v'.ops[o].s == t <==> v'.sessions[t].place == InOperation(o)
    {
      AwaitsKept(v, v', a, s, how, o, t);
    }
  }

  lemma AwaitsKept(v: View, v': View, a: Agent, s: SessionId, how: Motion, o: nat, t: SessionId)
    requires Moves(v, v', a, s, how) && Bounded(v) && Placed(v)
    requires PlaceMove(v, v', Before(v, a), v'.roles[a], Subject(v.sessions, s), Subject(v'.sessions, s), a, s, how)
    requires o in v'.ops && t < |v'.sessions|
    ensures v'.ops[o].s == t <==> v'.sessions[t].place == InOperation(o)
  {
  }

  lemma CalledBackKept(v: View, v': View, a: Agent, s: SessionId, how: Motion)
    requires Moves(v, v', a, s, how) && Bounded(v) && Placed(v)
    requires PlaceMove(v, v', Before(v, a), v'.roles[a], Subject(v.sessions, s), Subject(v'.sessions, s), a, s, how)
    ensures CalledBack(v')
  {
  }

  /** A session other than the subject stays as listed as it was. */
  lemma OthersListed(v: View, v': View, a: Agent, s: SessionId, how: Motion, t: SessionId)
    requires Moves(v, v', a, s, how) && Bounded(v) && Placed(v)
    requires PlaceMove(v, v', Before(v, a), v'.roles[a], Subject(v.sessions, s), Subject(v'.sessions, s), a, s, how)
    requires t != s && t < |v.sessions|
    ensures Listed(v', t) <==> Listed(v, t)
    ensures v'.sessions[t] == v.sessions[t]
  {
  }

  /** So does the subject, unless it is created, inserted or erased. */
  lemma SubjectListed(v: View, v': View, a: Agent, s: SessionId, how: Motion)
    requires Moves(v, v', a, s, how) && Bounded(v) && Placed(v) && s < |v.sessions|
    requires var p, r := Before(v, a), v'.roles[a];
             var x, x' := Subject(v.sessions, s), Subject(v'.sessions, s);
             PlaceMove(v, v', p, r, x, x', a, s, how) && ListMove(v, v', p, r, x.id, s, how)
    requires how == Stay ==> Before(v, a).carries.None? || Before(v, a).listed == v'.roles[a].listed
    ensures Listed(v', s) <==> Listed(v, s)
  {
    match how {
      case Launching => assert v.sessions[s].place == AtAgent(a);
      case Finishing => assert v.sessions[s].place == AtAgent(a);
      case Dispatching(o) => assert v.sessions[s].place == InOperation(o);
      case _ =>
    }
  }

  lemma MapSoundKept(v: View, v': View, a: Agent, s: SessionId, how: Motion)
    requires Moves(v, v', a, s, how) && Bounded(v) && Placed(v) && MapSound(v)
    requires var p, r := Before(v, a), v'.roles[a];
             var x, x' := Subject(v.sessions, s), Subject(v'.sessions, s);
             PlaceMove(v, v', p, r, x, x', a, s, how) && ListMove(v, v', p, r, x.id, s, how)
    ensures MapSound(v')
  {
    forall id | id in v'.active
      ensures v'.active[id] < |v'.sessions| && v'.sessions[v'.active[id]].id == id && Listed(v', v'.active[id])
    {
      var t := v'.active[id];
      if t != s {
        assert id in v.active && v.active[id] == t;
        OthersListed(v, v', a, s, how, t);
      } else if how == Stay && Before(v, a).carries.Some? && Before(v, a).listed != v'.roles[a].listed {
        assert v.sessions[s].place == AtAgent(a);
      } else {
        assert id in v.active && v.active[id] == s;
        SubjectListed(v, v', a, s, how);
      }
    }
  }

  lemma OtherStaysInMap(v: View, v': View, a: Agent, s: SessionId, how: Motion, t: SessionId)
    requires Moves(v, v', a, s, how) && Bounded(v) && Placed(v) && MapComplete(v)
    requires var p, r := Before(v, a), v'.roles[a];
             var x, x' := Subject(v.sessions, s), Subject(v'.sessions, s);
             PlaceMove(v, v', p, r, x, x', a, s, how) && ListMove(v, v', p, r, x.id, s, how)
    requires DistinctIds(v.sessions) && t < |v.sessions| && t != s && Listed(v', t)
    ensures InMap(v', t)
  {
    OthersListed(v, v', a, s, how, t);
    assert InMap(v, t);
    assert s < |v.sessions| ==> v.sessions[t].id != v.sessions[s].id;
  }

  lemma MapCompleteKept(v: View, v': View, a: Agent, s: SessionId, how: Motion)
    requires Moves(v, v', a, s, how) && Bounded(v) && Placed(v) && MapSound(v) && MapComplete(v)
    requires var p, r := Before(v, a), v'.roles[a];
             var x, x' := Subject(v.sessions, s), Subject(v'.sessions, s);
             PlaceMove(v, v', p, r, x, x', a, s, how) && ListMove(v, v', p, r, x.id, s, how)
    ensures MapComplete(v')
  {
    if DistinctIds(v'.sessions) {
      assert forall i :: 0 <= i < |v.sessions| ==> v'.sessions[i].id == v.sessions[i].id;
      assert DistinctIds(v.sessions);
      forall t | 0 <= t < |v'.sessions| && Listed(v', t) ensures InMap(v', t) {
        if t != s {
          OtherStaysInMap(v, v', a, s, how, t);
        } else if !how.Creating?
                  && (how == Stay ==> Before(v, a).carries.None? || Before(v, a).listed == v'.roles[a].listed) {
          SubjectListed(v, v', a, s, how);
        } else {
          assert v'.sessions[s].place == AtAgent(a);
        }
      }
    }
  }

  lemma CancelsSoundKept(v: View, v': View, a: Agent, s: SessionId, how: Motion)
    requires Moves(v, v', a, s, how) && Bounded(v) && MapLock(v) && CancelsSound(v)
    requires var p, r := Before(v, a), v'.roles[a];
             var x, x' := Subject(v.sessions, s), Subject(v'.sessions, s);
             && PlaceMove(v, v', p, r, x, x', a, s, how)
             && ListMove(v, v', p, r, x.id, s, how)
             && FlagMove(v, p, r, x, x', a, s, how)
    ensures CancelsSound(v')
  {
    forall b | b in v'.roles && v'.roles[b].cancels.Some? && v'.roles[b].cancels.value < |v'.sessions|
      ensures InMap(v', v'.roles[b].cancels.value) && b in v'.sessions[v'.roles[b].cancels.value].finds
    {
      var t := v'.roles[b].cancels.value;
      if b != a || v'.roles[a].cancels == Before(v, a).cancels {
        assert InMap(v, t) && b in v.sessions[t].finds;
        assert v.mapOwner == Some(b);
        assert v'.active == v.active;
      }
    }
  }

  lemma FlagsKept(v: View, v': View, a: Agent, s: SessionId, how: Motion)
    requires Moves(v, v', a, s, how) && Bounded(v) && CancelsSound(v) && Flags(v)
    requires var p, r := Before(v, a), v'.roles[a];
             var x, x' := Subject(v.sessions, s), Subject(v'.sessions, s);
             FlagMove(v, p, r, x, x', a, s, how)
    ensures Flags(v')
  {
    forall t | 0 <= t < |v'.sessions|
      ensures var session := v'.sessions[t];
              forall c :: c in session.finds && c in v'.roles ==>
                (c !in session.flaggedBy <==> v'.roles[c].flags == Some(t))
      ensures var session := v'.sessions[t];
              && (session.cancelled <==> session.flaggedBy != {})
              && session.flaggedBy <= session.finds
              && (forall c :: c in session.finds ==> c in v'.roles && v'.roles[c].spent)
    {
    }
  }

  /** Past its own erase a session's flag says exactly whether anyone ever found it. */
  lemma VerdictIsReported(v: View, s: SessionId)
    requires s < |v.sessions| && !Listed(v, s)
    requires Bounded(v) && MapSound(v) && CancelsSound(v) && Flags(v)
    ensures v.sessions[s].cancelled <==> v.sessions[s].finds != {}
    ensures Verdict(v.sessions[s]) == Reported(v.sessions[s])
  {
    var session := v.sessions[s];
    assert forall a :: a in v.roles ==> v.roles[a].cancels != Some(s);
    assert forall c :: c in session.finds ==> c in session.flaggedBy;
  }

  /** What a step leaves of the subject's verdict unless that session is listed. */
  lemma SubjectKept(v: View, v': View, a: Agent, s: SessionId, how: Motion)
    requires Moves(v, v', a, s, how) && Bounded(v) && MapSound(v) && s < |v.sessions|
    requires FlagMove(v, Before(v, a), v'.roles[a], v.sessions[s], v'.sessions[s], a, s, how)
    ensures v.sessions[s].cancelled ==> v'.sessions[s].cancelled
    ensures !Listed(v, s) ==> v'.sessions[s].finds == v.sessions[s].finds
  {
  }

  lemma OtherVerdictsKept(v: View, v': View, a: Agent, s: SessionId, how: Motion, b: Agent, t: SessionId)
    requires Moves(v, v', a, s, how)
    requires Bounded(v) && Placed(v) && MapSound(v) && CancelsSound(v) && Flags(v) && Verdicts(v)
    requires var p, r := Before(v, a), v'.roles[a];
             var x, x' := Subject(v.sessions, s), Subject(v'.sessions, s);
             PlaceMove(v, v', p, r, x, x', a, s, how) && FlagMove(v, p, r, x, x', a, s, how)
             && VerdictMove(p, r, x, x', s, how)
    requires b in v.roles && b != a && v.roles[b].completing && v.roles[b].carries == Some(t) && t < |v.sessions|
    ensures ThreadVerdict(v'.roles[b], v'.sessions[t])
  {
    assert v.sessions[t].place == AtAgent(b);
    if t == s {
      SubjectKept(v, v', a, s, how);
    }
  }

  lemma OwnVerdictKept(v: View, v': View, a: Agent, s: SessionId, how: Motion)
    requires Moves(v, v', a, s, how)
    requires Bounded(v) && Placed(v) && MapSound(v) && CancelsSound(v) && Flags(v) && Verdicts(v)
    requires var p, r := Before(v, a), v'.roles[a];
             var x, x' := Subject(v.sessions, s), Subject(v'.sessions, s);
             PlaceMove(v, v', p, r, x, x', a, s, how) && FlagMove(v, p, r, x, x', a, s, how)
             && VerdictMove(p, r, x, x', s, how)
    requires v'.roles[a].completing && v'.roles[a].carries == Some(s) && s < |v'.sessions|
    ensures ThreadVerdict(v'.roles[a], v'.sessions[s])
  {
    if Before(v, a).completing {
      assert s < |v.sessions| && v.sessions[s].place == AtAgent(a);
      SubjectKept(v, v', a, s, how);
      if !Before(v, a).listed {
        VerdictIsReported(v, s);
      }
    }
  }

  lemma FinishingVerdict(v: View, v': View, a: Agent, s: SessionId)
    requires Moves(v, v', a, s, Finishing) && s < |v.sessions|
    requires Bounded(v) && Placed(v) && MapSound(v) && Verdicts(v)
    requires var p, r := Before(v, a), v'.roles[a];
             var x, x' := v.sessions[s], v'.sessions[s];
             && PlaceMove(v, v', p, r, x, x', a, s, Finishing) && ListMove(v, v', p, r, x.id, s, Finishing)
             && FlagMove(v, p, r, x, x', a, s, Finishing) && VerdictMove(p, r, x, x', s, Finishing)
    ensures |v'.sessions[s].delivered| == 1 && FinalVerdict(v'.sessions[s])
  {
    SubjectKept(v, v', a, s, Finishing);
    assert v.sessions[s].place == AtAgent(a) && |v.sessions[s].delivered| == 0;
  }

  lemma FinishedVerdictsKept(v: View, v': View, a: Agent, s: SessionId, how: Motion, t: SessionId)
    requires Moves(v, v', a, s, how) && how != Finishing
    requires Bounded(v) && Placed(v) && MapSound(v) && Verdicts(v)
    requires var p, r := Before(v, a), v'.roles[a];
             var x, x' := Subject(v.sessions, s), Subject(v'.sessions, s);
             && PlaceMove(v, v', p, r, x, x', a, s, how)
             && FlagMove(v, p, r, x, x', a, s, how) && VerdictMove(p, r, x, x', s, how)
    requires t < |v'.sessions| && v'.sessions[t].place.Finished? && |v'.sessions[t].delivered| == 1
    ensures FinalVerdict(v'.sessions[t])
  {
    if t == s && s < |v.sessions| {
      SubjectKept(v, v', a, s, how);
    }
  }

  lemma VerdictsKept(v: View, v': View, a: Agent, s: SessionId, how: Motion)
    requires Moves(v, v', a, s, how)
    requires Bounded(v) && Placed(v) && MapSound(v) && CancelsSound(v) && Flags(v) && Verdicts(v)
    requires var p, r := Before(v, a), v'.roles[a];
             var x, x' := Subject(v.sessions, s), Subject(v'.sessions, s);
             && PlaceMove(v, v', p, r, x, x', a, s, how) && ListMove(v, v', p, r, x.id, s, how)
             && FlagMove(v, p, r, x, x', a, s, how) && VerdictMove(p, r, x, x', s, how)
    ensures Verdicts(v')
  {
    forall b | b in v'.roles && v'.roles[b].completing && v'.roles[b].carries.Some?
               && v'.roles[b].carries.value < |v'.sessions|
      ensures ThreadVerdict(v'.roles[b], v'.sessions[v'.roles[b].carries.value])
    {
      if b == a {
        OwnVerdictKept(v, v', a, s, how);
      } else {
        OtherVerdictsKept(v, v', a, s, how, b, v'.roles[b].carries.value);
      }
    }
    forall t | 0 <= t < |v'.sessions| && v'.sessions[t].place.Finished? && |v'.sessions[t].delivered| == 1
      ensures FinalVerdict(v'.sessions[t])
    {
      if how == Finishing && t == s {
        FinishingVerdict(v, v', a, s);
      } else if how == Finishing {
        assert v'.sessions[t] == v.sessions[t];
      } else {
        FinishedVerdictsKept(v, v', a, s, how, t);
      }
    }
  }

  lemma ReadsKept(v: View, v': View, a: Agent, s: SessionId, how: Motion)
    requires Moves(v, v', a, s, how) && Bounded(v) && Placed(v) && Reads(v)
    requires var p, r := Before(v, a), v'.roles[a];
             var x, x' := Subject(v.sessions, s), Subject(v'.sessions, s);
             PlaceMove(v, v', p, r, x, x', a, s, how) && ReadMove(p, r, x)
    ensures Reads(v')
  {
  }

  lemma SplitOff(x: set<Agent>, a: Agent)
    ensures |x| == |x - {a}| + (if a in x then 1 else 0)
  {
    if a in x {
      assert x == (x - {a}) + {a};
    } else {
      assert x == x - {a};
    }
  }

  lemma BusyKept(v: View, v': View, a: Agent)
    requires a in v'.roles && v'.roles == v.roles[a := v'.roles[a]]
    ensures var p, r := Before(v, a), v'.roles[a];
            |Busy(v')| - |Busy(v)| == (if r.handling then 1 else 0) - (if p.handling then 1 else 0)
    ensures Before(v, a).handling ==> 0 < |Busy(v)|
  {
    SplitOff(Busy(v), a);
    SplitOff(Busy(v'), a);
    assert Busy(v') - {a} == Busy(v) - {a};
  }

  lemma OpsKept(ops: map<nat, Pending>, t: nat, o: Pending)
    ensures t !in ops ==> |ops[t := o]| == |ops| + 1
    ensures t in ops ==> |ops - {t}| == |ops| - 1
  {
    if t in ops {
      assert ops.Keys == (ops - {t}).Keys + {t};
      assert |ops| == |ops.Keys| && |ops - {t}| == |(ops - {t}).Keys|;
    }
  }

  /** The work count stays exact. */
  lemma CountKept(v: View, v': View, a: Agent, s: SessionId, how: Motion)
    requires Moves(v, v', a, s, how) && Bounded(v)
    requires v.work == (if v.guardHeld then 1 else 0) + |v.ops| + |Busy(v)|
    requires var p, r := Before(v, a), v'.roles[a];
             var x, x' := Subject(v.sessions, s), Subject(v'.sessions, s);
             PlaceMove(v, v', p, r, x, x', a, s, how) && WorkMove(v, v', p, r, how)
    ensures v'.work == (if v'.guardHeld then 1 else 0) + |v'.ops| + |Busy(v')|
    ensures Before(v, a).handling ==> 0 < |Busy(v)|
  {
    BusyKept(v, v', a);
    match how {
      case Launching => OpsKept(v.ops, v.nextOp, v'.ops[v.nextOp]);
      case Dispatching(t) => OpsKept(v.ops, t, v.ops[t]);
      case _ =>
    }
  }

  lemma WorkKept(v: View, v': View, a: Agent, s: SessionId, how: Motion)
    requires Moves(v, v', a, s, how) && Bounded(v) && Work(v)
    requires var p, r := Before(v, a), v'.roles[a];
             var x, x' := Subject(v.sessions, s), Subject(v'.sessions, s);
             PlaceMove(v, v', p, r, x, x', a, s, how) && WorkMove(v, v', p, r, how)
    ensures Work(v')
  {
    CountKept(v, v', a, s, how);
    assert forall w :: HasLeft(v, w) ==> HasLeft(v', w);
  }
}
