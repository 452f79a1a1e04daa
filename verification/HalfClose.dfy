/**
 The half-close exchange as a state machine: an asker and an answerer over two bounded channels, one in
 each direction, whose transfers move any non-zero number of bytes in any order.
 */
module HalfClose {
  import opened Runs
  import opened Streams

  /** Where an end is: in its write, about to shut its sending side, in its read, or returned. */
  datatype Phase = Writing | Closing | Reading | Returned(line: string)

  datatype End = End(source: string, sent: nat, got: string, phase: Phase)

  /** The bytes in flight in one direction, and whether the sender has shut it. */
  datatype Pipe = Pipe(capacity: nat, queue: string, closed: bool)

  /** `SendRequestAndGetReplay` runs in the asker, `GetRequestAndSendReplay` in the answerer. */
  datatype State = State(asker: End, answerer: End, forward: Pipe, backward: Pipe)

  datatype Side = Asker | Answerer

  datatype Move = WriteSome(n: nat) | WriteDone | Shutdown | ReadSome(n: nat) | SeeEnd

  datatype Action = Action(side: Side, move: Move)

  function Init(request: string, reply: string, forward: nat, backward: nat): State {
    State(End(request, 0, "", Writing), End(reply, 0, "", Reading),
          Pipe(forward, "", false), Pipe(backward, "", false))
  }

  function EndOf(st: State, side: Side): End {
    if side.Asker? then st.asker else st.answerer
  }

  /** The channel this side sends into, and the one it receives from. */
  function Out(st: State, side: Side): Pipe {
    if side.Asker? then st.forward else st.backward
  }

  function In(st: State, side: Side): Pipe {
    if side.Asker? then st.backward else st.forward
  }

  predicate CanMove(end: End, out: Pipe, into: Pipe, move: Move) {
    match move
    case WriteSome(n) => end.phase.Writing? && 1 <= n <= |end.source| - end.sent && |out.queue| + n <= out.capacity
    case WriteDone => end.phase.Writing? && end.sent == |end.source|
    case Shutdown => end.phase.Closing?
    case ReadSome(n) => end.phase.Reading? && 1 <= n <= |into.queue|
    case SeeEnd => end.phase.Reading? && into.queue == "" && into.closed
  }

  predicate Enabled(st: State, action: Action) {
    CanMove(EndOf(st, action.side), Out(st, action.side), In(st, action.side), action.move)
  }

  /** The asker reads after it has shut its sending side; the answerer returns then, with the first line. */
  function AfterShutdown(side: Side, got: string): Phase {
    if side.Asker? then Reading else Returned(FirstLine(got))
  }

  function AfterEnd(side: Side, got: string): Phase {
    if side.Asker? then Returned(FirstLine(got)) else Writing
  }

  function MoveEnd(end: End, into: Pipe, side: Side, move: Move): End
    requires move.ReadSome? ==> move.n <= |into.queue|
  {
    match move
    case WriteSome(n) => end.(sent := end.sent + n)
    case WriteDone => end.(phase := Closing)
    case Shutdown => end.(phase := AfterShutdown(side, end.got))
    case ReadSome(n) => end.(got := end.got + into.queue[..n])
    case SeeEnd => end.(phase := AfterEnd(side, end.got))
  }

  function MoveOut(end: End, out: Pipe, move: Move): Pipe
    requires move.WriteSome? ==> end.sent + move.n <= |end.source|
  {
    match move
    case WriteSome(n) => out.(queue := out.queue + end.source[end.sent..end.sent + n])
    case Shutdown => out.(closed := true)
    case _ => out
  }

  function MoveIn(into: Pipe, move: Move): Pipe
    requires move.ReadSome? ==> move.n <= |into.queue|
  {
    if move.ReadSome? then into.(queue := into.queue[move.n..]) else into
  }

  function Do(st: State, action: Action): State
    requires Enabled(st, action)
  {
    var side, move := action.side, action.move;
    var end := MoveEnd(EndOf(st, side), In(st, side), side, move);
    var out := MoveOut(EndOf(st, side), Out(st, side), move);
    var into := MoveIn(In(st, side), move);
    if side.Asker? then State(end, st.answerer, out, into) else State(st.asker, end, into, out)
  }

  ghost predicate Performs(st: State, action: Action, st': State) {
    Enabled(st, action) && st' == Do(st, action)
  }

  // ---------------------------------------------------------------------- the invariant

  /** One direction: nothing is lost or reordered, and the end of it is told after its last byte. */
  ghost predicate Direction(sender: End, pipe: Pipe, receiver: End) {
    && sender.sent <= |sender.source|
    && receiver.got + pipe.queue == sender.source[..sender.sent]
    && |pipe.queue| <= pipe.capacity
    && (pipe.closed || sender.phase.Closing? ==> sender.sent == |sender.source|)
  }

  /** The receiver has left its read only after the end of the other's stream. */
  ghost predicate Ordered(st: State) {
    && (st.forward.closed <==> st.asker.phase.Reading? || st.asker.phase.Returned?)
    && (st.backward.closed <==> st.answerer.phase.Returned?)
    && (!st.answerer.phase.Reading? ==> st.forward.closed && st.forward.queue == "")
    && (st.asker.phase.Returned? ==> st.backward.closed && st.backward.queue == "")
  }

  ghost predicate Lines(end: End) {
    end.phase.Returned? ==> end.phase.line == FirstLine(end.got)
  }

  ghost predicate Inv(st: State) {
    && Direction(st.asker, st.forward, st.answerer)
    && Direction(st.answerer, st.backward, st.asker)
    && Ordered(st) && Lines(st.asker) && Lines(st.answerer)
  }

  lemma SendKeepsDirection(sender: End, pipe: Pipe, receiver: End, into: Pipe, side: Side, move: Move)
    requires Direction(sender, pipe, receiver) && CanMove(sender, pipe, into, move)
    requires pipe.closed ==> !sender.phase.Writing?
    ensures Direction(MoveEnd(sender, into, side, move), MoveOut(sender, pipe, move), receiver)
  {
    if move.WriteSome? {
      var k := sender.sent + move.n;
      var more := sender.source[sender.sent..k];
      assert receiver.got + (pipe.queue + more) == receiver.got + pipe.queue + more;
      assert sender.source[..k] == sender.source[..sender.sent] + more;
    }
  }

  lemma ReceiveKeepsDirection(sender: End, pipe: Pipe, receiver: End, out: Pipe, side: Side, move: Move)
    requires Direction(sender, pipe, receiver) && CanMove(receiver, out, pipe, move)
    ensures Direction(sender, MoveIn(pipe, move), MoveEnd(receiver, pipe, side, move))
  {
    if move.ReadSome? {
      var n := move.n;
      assert pipe.queue == pipe.queue[..n] + pipe.queue[n..];
      assert receiver.got + pipe.queue[..n] + pipe.queue[n..] == receiver.got + pipe.queue;
    }
  }

  lemma ActionKeepsOrdered(st: State, action: Action)
    requires Ordered(st) && Enabled(st, action)
    ensures Ordered(Do(st, action))
  {
  }

  lemma ActionKeepsInv(st: State, action: Action)
    requires Inv(st) && Enabled(st, action)
    ensures Inv(Do(st, action))
  {
    ActionKeepsOrdered(st, action);
    var move := action.move;
    if action.side.Asker? {
      SendKeepsDirection(st.asker, st.forward, st.answerer, st.backward, Asker, move);
      ReceiveKeepsDirection(st.answerer, st.backward, st.asker, st.forward, Asker, move);
    } else {
      SendKeepsDirection(st.answerer, st.backward, st.asker, st.forward, Answerer, move);
      ReceiveKeepsDirection(st.asker, st.forward, st.answerer, st.backward, Answerer, move);
    }
  }

  // ----------------------------------------------------------------------- termination

  /** The steps an end has ahead of it besides moving bytes. */
  function Ahead(side: Side, phase: Phase): nat {
    match phase
    case Writing => if side.Asker? then 3 else 2
    case Closing => if side.Asker? then 2 else 1
    case Reading => if side.Asker? then 1 else 3
    case Returned(_) => 0
  }

  /** Every byte not sent yet has two transfers ahead of it, every byte in flight has one. */
  function Measure(st: State): int {
    2 * (|st.asker.source| - st.asker.sent) + |st.forward.queue| + Ahead(Asker, st.asker.phase)
    + 2 * (|st.answerer.source| - st.answerer.sent) + |st.backward.queue| + Ahead(Answerer, st.answerer.phase)
  }

  ghost predicate Same(st: State, request: string, reply: string, forward: nat, backward: nat) {
    && st.asker.source == request && st.answerer.source == reply
    && st.forward.capacity == forward && st.backward.capacity == backward
  }

  lemma ActionDecreasesMeasure(st: State, action: Action)
    requires Inv(st) && Enabled(st, action)
    ensures 0 <= Measure(Do(st, action)) < Measure(st)
    ensures Same(Do(st, action), st.asker.source, st.answerer.source, st.forward.capacity, st.backward.capacity)
  {
    ActionKeepsInv(st, action);
  }

  /** Every run keeps the invariant. */
  lemma {:induction false} RunKeepsInv(actions: seq<Action>, states: seq<State>, n: nat)
    requires n <= |actions| < |states| && Run(Performs, states[0], actions, states) && Inv(states[0])
    ensures Inv(states[n])
  {
    forall st, action, st' | Inv(st) && Performs(st, action, st') ensures Inv(st') {
      ActionKeepsInv(st, action);
    }
    RunKeeps(Performs, Inv, actions, states, n);
  }

  /** Every step of a run uses up some of the measure. */
  lemma {:induction false} RunUsesMeasure(actions: seq<Action>, states: seq<State>, n: nat)
    requires n <= |actions| < |states| && Run(Performs, states[0], actions, states) && Inv(states[0])
    ensures n + Measure(states[n]) <= Measure(states[0])
    ensures Same(states[n], states[0].asker.source, states[0].answerer.source,
                 states[0].forward.capacity, states[0].backward.capacity)
    decreases n
  {
    if n > 0 {
      RunUsesMeasure(actions, states, n - 1);
      RunKeepsInv(actions, states, n - 1);
      assert Performs(states[n - 1], actions[n - 1], states[n]);
      ActionDecreasesMeasure(states[n - 1], actions[n - 1]);
    }
  }

  /** What is known after any number of steps. */
  lemma {:induction false} AfterSteps(request: string, reply: string, forward: nat, backward: nat,
                                      actions: seq<Action>, states: seq<State>, n: nat)
    requires Run(Performs, Init(request, reply, forward, backward), actions, states) && n <= |actions|
    ensures Inv(states[n]) && Same(states[n], request, reply, forward, backward)
    ensures n <= 2 * (|request| + |reply|) + 6
  {
    RunKeepsInv(actions, states, n);
    RunUsesMeasure(actions, states, n);
  }

  // --------------------------------------------------------------------- what is promised

  /** Each end returns exactly the first line of the other's message, in every interleaving. */
  lemma {:induction false} EachGetsTheOthersLine(request: string, reply: string, forward: nat, backward: nat,
                                                 actions: seq<Action>, states: seq<State>, n: nat)
    requires Run(Performs, Init(request, reply, forward, backward), actions, states) && n <= |actions|
    ensures states[n].asker.phase.Returned? ==> IsFirstLine(states[n].asker.phase.line, reply)
    ensures states[n].answerer.phase.Returned? ==> IsFirstLine(states[n].answerer.phase.line, request)
  {
    EachReturnsFirstLine(request, reply, forward, backward, actions, states, n);
    FirstLineExactly(FirstLine(reply), reply);
    FirstLineExactly(FirstLine(request), request);
  }

  lemma EachReturnsFirstLine(request: string, reply: string, forward: nat, backward: nat,
                             actions: seq<Action>, states: seq<State>, n: nat)
    requires Run(Performs, Init(request, reply, forward, backward), actions, states) && n <= |actions|
    ensures states[n].asker.phase.Returned? ==> states[n].asker.phase.line == FirstLine(reply)
    ensures states[n].answerer.phase.Returned? ==> states[n].answerer.phase.line == FirstLine(request)
  {
    AfterSteps(request, reply, forward, backward, actions, states, n);
    assert request[..|request|] == request && reply[..|reply|] == reply;
    var st := states[n];
    assert st.answerer.got + "" == st.answerer.got && st.asker.got + "" == st.asker.got;
  }

  ghost predicate Stuck(st: State) {
    forall action :: !Enabled(st, action)
  }

  /** A write that has bytes left and a channel that can never hold one. */
  ghost predicate Blocked(end: End, out: Pipe) {
    end.phase.Writing? && end.sent < |end.source| && out.capacity == 0
  }

  /** What the side that is in its write can do next, or the other for it. */
  lemma WriterMoves(st: State, side: Side)
    requires Inv(st) && EndOf(st, side).phase.Writing? && !Blocked(EndOf(st, side), Out(st, side))
    ensures !Stuck(st)
  {
    var end, out := EndOf(st, side), Out(st, side);
    if end.sent == |end.source| {
      assert Enabled(st, Action(side, WriteDone));
    } else if |out.queue| < out.capacity {
      assert Enabled(st, Action(side, WriteSome(1)));
    } else {
      assert Enabled(st, Action(if side.Asker? then Answerer else Asker, ReadSome(1)));
    }
  }

  /** A reader whose channel is shut can go on. */
  lemma ReaderMoves(st: State, side: Side)
    requires EndOf(st, side).phase.Reading? && In(st, side).closed
    ensures !Stuck(st)
  {
    if In(st, side).queue == "" {
      assert Enabled(st, Action(side, SeeEnd));
    } else {
      assert Enabled(st, Action(side, ReadSome(1)));
    }
  }

  /** When nothing can happen any more: both ends have returned, or a channel without room blocks a write. */
  lemma {:induction false} StuckExactly(st: State)
    requires Inv(st)
    ensures Stuck(st) <==>
              || (st.asker.phase.Returned? && st.answerer.phase.Returned?)
              || Blocked(st.asker, st.forward)
              || Blocked(st.answerer, st.backward)
  {
    if st.asker.phase.Closing? {
      assert Enabled(st, Action(Asker, Shutdown));
    } else if st.answerer.phase.Closing? {
      assert Enabled(st, Action(Answerer, Shutdown));
    } else if st.asker.phase.Writing? && !Blocked(st.asker, st.forward) {
      WriterMoves(st, Asker);
    } else if st.answerer.phase.Writing? && !Blocked(st.answerer, st.backward) {
      WriterMoves(st, Answerer);
    } else if st.answerer.phase.Reading? && st.forward.closed {
      ReaderMoves(st, Answerer);
    } else if st.asker.phase.Reading? && st.backward.closed {
      ReaderMoves(st, Asker);
    }
  }

  /**
   Over any two channels with room for a byte there is no deadlock: every run is finite, and a run that
   cannot go on has given each end the first line of the other's message.
   */
  lemma {:induction false} ExchangeCompletes(request: string, reply: string, forward: nat, backward: nat,
                                             actions: seq<Action>, states: seq<State>)
    requires 1 <= forward && 1 <= backward
    requires Run(Performs, Init(request, reply, forward, backward), actions, states)
    ensures |actions| <= 2 * (|request| + |reply|) + 6
    ensures var st := states[|actions|];
            Stuck(st) <==>
              && st.asker.phase.Returned? && IsFirstLine(st.asker.phase.line, reply)
              && st.answerer.phase.Returned? && IsFirstLine(st.answerer.phase.line, request)
  {
    var st := states[|actions|];
    AfterSteps(request, reply, forward, backward, actions, states, |actions|);
    EachGetsTheOthersLine(request, reply, forward, backward, actions, states, |actions|);
    StuckExactly(st);
  }
}
