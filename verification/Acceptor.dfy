/**
 The asynchronous acceptor as a state machine: one chain of accept operations whose handlers run on any
 io thread, and `Stop` calls from any other thread at any time.
 */
module Acceptor {
  import opened Runs

  /** Where an io thread is in the accept handler. `ok` says that a connection was accepted. */
  datatype PC =
    | Idle
    | Entered(ok: bool)
    | Decide
    | Rearm
    | Close

  /** `pending` counts the accept operations in progress, `created` the services made so far. */
  datatype State = State(
    pcs: map<nat, PC>,
    pending: nat,
    started: bool,
    stopFlag: bool,
    closed: bool,
    created: nat)

  datatype Action =
    | Start
    | Stop
    | Dispatch(w: nat, ok: bool)
    | Step(w: nat)

  function Init(): State {
    State(map[], 0, false, false, false, 0)
  }

  predicate Busy(st: State, w: nat) {
    w in st.pcs && !st.pcs[w].Idle?
  }

  predicate Enabled(st: State, action: Action) {
    match action
    case Start => !st.started
    case Stop => true
    case Dispatch(w, _) => 0 < st.pending && !Busy(st, w)
    case Step(w) => Busy(st, w)
  }

  function GoTo(st: State, w: nat, pc: PC): State {
    st.(pcs := st.pcs[w := pc])
  }

  /** The handler makes a service for an accepted connection, then reads the flag, then acts on it. */
  function Take(st: State, w: nat): State
    requires Busy(st, w)
  {
    match st.pcs[w]
    case Entered(ok) => GoTo(st.(created := st.created + if ok then 1 else 0), w, Decide)
    case Decide => GoTo(st, w, if st.stopFlag then Close else Rearm)
    case Rearm => GoTo(st.(pending := st.pending + 1), w, Idle)
    case Close => GoTo(st.(closed := true), w, Idle)
    case Idle => st
  }

  function Do(st: State, action: Action): State
    requires Enabled(st, action)
  {
    match action
    case Start => st.(started := true, pending := st.pending + 1)
    case Stop => st.(stopFlag := true)
    case Dispatch(w, ok) => GoTo(st.(pending := st.pending - 1), w, Entered(ok))
    case Step(w) => Take(st, w)
  }

  ghost predicate Performs(st: State, action: Action, st': State) {
    Enabled(st, action) && st' == Do(st, action)
  }

  ghost predicate Reachable(st: State) {
    Leads(Performs, Init(), st)
  }

  // -------------------------------------------------------------------------- one chain

  /** The threads inside the accept handler. */
  ghost function Handlers(st: State): set<nat> {
    set w | w in st.pcs && Busy(st, w)
  }

  /** Before the start nothing happens; then either one accept is pending or one thread handles one. */
  ghost predicate OneChain(st: State) {
    && st.pending <= 1
    && (forall w: nat :: Busy(st, w) ==> st.started && st.pending == 0)
    && (forall w: nat, w': nat :: Busy(st, w) && Busy(st, w') ==> w == w')
    && (0 < st.pending ==> st.started && !st.closed)
    && (st.closed ==> st.started && st.stopFlag && forall w: nat :: !Busy(st, w))
    && (forall w: nat :: Busy(st, w) && st.pcs[w].Close? ==> st.stopFlag)
    && (st.started && !st.closed ==> 0 < st.pending || exists w: nat :: Busy(st, w))
  }

  lemma ActionKeepsOneChain(st: State, action: Action)
    requires OneChain(st) && Enabled(st, action)
    ensures OneChain(Do(st, action))
  {
    var st' := Do(st, action);
    match action {
      case Start =>
        assert forall v: nat :: Busy(st', v) <==> Busy(st, v);
      case Stop =>
        assert forall v: nat :: Busy(st', v) <==> Busy(st, v);
      case Dispatch(w, _) =>
        assert forall v: nat :: Busy(st', v) <==> v == w || Busy(st, v);
        assert Busy(st', w);
      case Step(w) =>
        assert forall v: nat :: Busy(st', v) ==> v == w || Busy(st, v);
        assert !st.pcs[w].Rearm? && !st.pcs[w].Close? ==> Busy(st', w);
    }
  }

  lemma {:induction false} ReachableOneChain(st: State)
    requires Reachable(st)
    ensures OneChain(st)
  {
    forall s, action, s' | OneChain(s) && Performs(s, action, s') ensures OneChain(s') {
      ActionKeepsOneChain(s, action);
    }
    LeadsKeeps(Performs, OneChain, Init(), st);
  }

  /** From the start to the close there is exactly one accept operation or handler. */
  lemma {:induction false} ExactlyOneAccept(st: State)
    requires Reachable(st)
    ensures st.pending + |Handlers(st)| == if st.started && !st.closed then 1 else 0
  {
    ReachableOneChain(st);
    if w: nat :| Busy(st, w) {
      assert Handlers(st) == {w};
    } else {
      assert Handlers(st) == {};
    }
  }

  // ------------------------------------------------------------- a service for each connection

  /** How many connections these actions accept. */
  ghost function Accepted(actions: seq<Action>): nat {
    if actions == [] then 0
    else
      var last := actions[|actions| - 1];
      Accepted(actions[..|actions| - 1]) + if last.Dispatch? && last.ok then 1 else 0
  }

  lemma AcceptedOfPrefix(actions: seq<Action>, n: nat)
    requires 0 < n <= |actions|
    ensures Accepted(actions[..n])
         == Accepted(actions[..n - 1]) + if actions[n - 1].Dispatch? && actions[n - 1].ok then 1 else 0
  {
    assert actions[..n][..n - 1] == actions[..n - 1];
  }

  /** A connection has been accepted and its service is about to be made. */
  ghost predicate ServiceDue(st: State) {
    exists w: nat :: w in st.pcs && st.pcs[w] == Entered(true)
  }

  ghost function Served(st: State): nat {
    st.created + if ServiceDue(st) then 1 else 0
  }

  lemma ActionServes(st: State, action: Action)
    requires OneChain(st) && Enabled(st, action)
    ensures Served(Do(st, action)) == Served(st) + if action.Dispatch? && action.ok then 1 else 0
  {
    var st' := Do(st, action);
    match action {
      case Start =>
      case Stop =>
      case Dispatch(w, ok) =>
        assert forall v: nat :: v in st.pcs && st.pcs[v] == Entered(true) ==> Busy(st, v);
        assert st'.pcs[w] == Entered(ok);
      case Step(w) =>
        assert forall v: nat :: v in st.pcs && v != w && st.pcs[v] == Entered(true) ==> Busy(st, v);
    }
  }

  /** Over every run one service is made for each connection accepted, whether `Stop` has been called or not. */
  lemma {:induction false} OneServiceEach(actions: seq<Action>, states: seq<State>, n: nat)
    requires Run(Performs, Init(), actions, states) && n <= |actions|
    ensures states[n].created + (if ServiceDue(states[n]) then 1 else 0) == Accepted(actions[..n])
    decreases n
  {
    if n > 0 {
      OneServiceEach(actions, states, n - 1);
      PrefixOfRun(Performs, Init(), actions, states, n - 1);
      ReachableOneChain(states[n - 1]);
      assert Performs(states[n - 1], actions[n - 1], states[n]);
      ActionServes(states[n - 1], actions[n - 1]);
      AcceptedOfPrefix(actions, n);
    }
  }

  // ----------------------------------------------------------------------------- stopping

  /** One more service may still be made although the flag is set: the chain has not read it since. */
  ghost predicate OneMore(st: State) {
    || !st.started
    || 0 < st.pending
    || (exists w: nat :: Busy(st, w) && (st.pcs[w].Rearm? || st.pcs[w] == Entered(true)))
  }

  ghost function Budget(st: State): nat {
    st.created + if OneMore(st) then 1 else 0
  }

  lemma ActionKeepsBudget(st: State, action: Action)
    requires OneChain(st) && st.stopFlag && Enabled(st, action)
    ensures Do(st, action).stopFlag && Budget(Do(st, action)) <= Budget(st)
    ensures st.created <= Do(st, action).created
  {
    var st' := Do(st, action);
    if action.Step? {
      var w := action.w;
      assert forall v: nat :: Busy(st', v) ==> v == w || Busy(st, v);
    } else if action.Dispatch? {
      assert forall v: nat :: Busy(st', v) ==> v == action.w || Busy(st, v);
    } else {
      assert forall v: nat :: Busy(st', v) <==> Busy(st, v);
    }
  }

  /** The flag is set and no more has been created than the budget of `from` allows. */
  ghost predicate WithinBudget(from: State, st: State) {
    OneChain(st) && st.stopFlag && from.created <= st.created && Budget(st) <= Budget(from)
  }

  /** After `Stop` at most one more service is created, however the run goes on. */
  lemma {:induction false} AtMostOneMore(st: State, st': State)
    requires Reachable(st) && st.stopFlag && Leads(Performs, st, st')
    ensures st'.stopFlag && st.created <= st'.created <= Budget(st) <= st.created + 1
  {
    ReachableOneChain(st);
    forall s, action, s' | WithinBudget(st, s) && Performs(s, action, s') ensures WithinBudget(st, s') {
      ActionKeepsOneChain(s, action);
      ActionKeepsBudget(s, action);
    }
    LeadsKeeps(Performs, s => WithinBudget(st, s), st, st');
  }

  ghost predicate CanCreate(st: State) {
    exists st' :: Leads(Performs, st, st') && st.created < st'.created
  }

  lemma EnteredCanCreate(st: State, st': State, w: nat)
    requires Leads(Performs, st, st') && st.created <= st'.created && Busy(st', w) && st'.pcs[w] == Entered(true)
    ensures CanCreate(st)
  {
    LeadsFurther(Performs, st, st', Step(w), Do(st', Step(w)));
  }

  lemma PendingCanCreate(st: State, st': State, w: nat)
    requires Leads(Performs, st, st') && st.created <= st'.created && 0 < st'.pending && !Busy(st', w)
    ensures CanCreate(st)
  {
    LeadsFurther(Performs, st, st', Dispatch(w, true), Do(st', Dispatch(w, true)));
    EnteredCanCreate(st, Do(st', Dispatch(w, true)), w);
  }

  /** After `Stop`, exactly which states of the chain still let one service be created. */
  lemma {:induction false} OneMoreExactly(st: State)
    requires Reachable(st) && st.stopFlag
    ensures CanCreate(st) <==> OneMore(st)
  {
    ReachableOneChain(st);
    LeadsNowhere<State, Action>(Performs, st);
    if OneMore(st) {
      if !st.started {
        assert !Busy(st, 0);
        LeadsFurther(Performs, st, st, Start, Do(st, Start));
        PendingCanCreate(st, Do(st, Start), 0);
      } else if 0 < st.pending {
        PendingCanCreate(st, st, 0);
      } else {
        var w: nat :| Busy(st, w) && (st.pcs[w].Rearm? || st.pcs[w] == Entered(true));
        if st.pcs[w].Rearm? {
          LeadsFurther(Performs, st, st, Step(w), Do(st, Step(w)));
          PendingCanCreate(st, Do(st, Step(w)), w);
        } else {
          EnteredCanCreate(st, st, w);
        }
      }
    } else {
      forall st' | Leads(Performs, st, st') ensures st'.created <= st.created {
        AtMostOneMore(st, st');
      }
    }
  }

  // ------------------------------------------------------------------------------ closing

  ghost predicate CanClose(st: State) {
    exists st' :: Leads(Performs, st, st') && st'.closed
  }

  lemma GoesOn(st: State, st': State, action: Action)
    requires Leads(Performs, st, st') && Enabled(st', action)
    ensures Leads(Performs, st, Do(st', action))
  {
    LeadsFurther(Performs, st, st', action, Do(st', action));
  }

  lemma HandlerCloses(st: State, st': State, w: nat)
    requires Leads(Performs, st, st') && st'.stopFlag && Busy(st', w) && !st'.pcs[w].Rearm?
    ensures CanClose(st)
  {
    var x := st';
    if x.pcs[w].Entered? {
      GoesOn(st, x, Step(w));
      x := Do(x, Step(w));
    }
    if x.pcs[w].Decide? {
      GoesOn(st, x, Step(w));
      x := Do(x, Step(w));
    }
    GoesOn(st, x, Step(w));
  }

  lemma PendingCloses(st: State, st': State, w: nat)
    requires Leads(Performs, st, st') && st'.stopFlag && 0 < st'.pending && !Busy(st', w)
    ensures CanClose(st)
  {
    GoesOn(st, st', Dispatch(w, false));
    HandlerCloses(st, Do(st', Dispatch(w, false)), w);
  }

  /** `Stop` can be called in every state of the chain, and the chain can close after it. */
  lemma {:induction false} StopCanClose(st: State)
    requires Reachable(st) && st.started
    ensures Enabled(st, Stop) && CanClose(Do(st, Stop))
  {
    ReachableOneChain(st);
    var from := Do(st, Stop);
    LeadsNowhere<State, Action>(Performs, from);
    assert forall w: nat :: Busy(from, w) <==> Busy(st, w);
    if !from.closed {
      if 0 < from.pending {
        PendingCloses(from, from, 0);
      } else {
        var w: nat :| Busy(from, w);
        if from.pcs[w].Rearm? {
          GoesOn(from, from, Step(w));
          PendingCloses(from, Do(from, Step(w)), w);
        } else {
          HandlerCloses(from, from, w);
        }
      }
    }
  }
}
