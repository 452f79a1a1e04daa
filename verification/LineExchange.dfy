/** The asynchronous TCP client talking to the line service, over all runs of the client. */
module LineExchange {
  import opened Errors
  import opened Runs
  import opened Text
  import opened TcpClient
  import opened TcpClientInvariants
  import opened TcpClientSteps
  import opened TcpClientTheorems
  import opened TcpClientOutcomes
  import Streams
  import LineService

  /** The request without its line break. */
  function Operation(duration: nat): string {
    "EMULATE_LONG_CALC_OP " + Decimal(duration)
  }

  lemma OperationHasNoBreak(duration: nat)
    ensures LF !in Operation(duration)
  {
    DecimalIsWord(duration);
  }

  /** Read by line, the service's answer to a request is the fixed prefix and the request. */
  lemma AnswerToRequest(duration: nat)
    ensures var answer := LineService.Answer(RequestText(duration));
            LF in answer && Streams.FirstLine(answer) == "request is processed!: " + Operation(duration)
  {
    OperationHasNoBreak(duration);
    LineService.AnswerReadByLine(Operation(duration), "");
    assert RequestText(duration) == Operation(duration) + "\n" + "";
  }

  /** Short of the whole request the service answers nothing. */
  lemma NoAnswerToPart(duration: nat, received: string)
    requires received <= RequestText(duration) && LF in received
    ensures received == RequestText(duration)
  {
    OperationHasNoBreak(duration);
    assert RequestText(duration) == Operation(duration) + "\n";
    var i :| 0 <= i < |received| && received[i] == LF;
    assert RequestText(duration)[i] == LF;
    assert forall j :: 0 <= j < |Operation(duration)| ==> RequestText(duration)[j] == Operation(duration)[j] != LF;
  }

  /** The bytes that a session's writes carry. */
  ghost function Carried(launched: seq<TcpClient.Operation>): string {
    if launched == [] then ""
    else
      var last := launched[|launched| - 1];
      Carried(launched[..|launched| - 1]) + if last.Write? then last.data else ""
  }

  lemma CarriedByChain(request: string)
    ensures Carried([Connect, Write(request), Read]) == request
  {
    var chain := [Connect, Write(request), Read];
    assert chain[..2] == [Connect, Write(request)] && chain[..2][..1] == [Connect] && chain[..2][..1][..0] == [];
    assert Carried(chain[..2][..1]) == "";
    assert Carried(chain[..2]) == "" + request;
    assert Carried(chain) == Carried(chain[..2]) + "";
  }

  /** A call of `EmulateLongComputationOp`, and everything its peer would send. */
  datatype StartCall = StartCall(id: RequestId, duration: nat, peer: string)

  function CallOf(action: Action): seq<StartCall> {
    if action.Start? then [StartCall(action.id, action.duration, action.peer)] else []
  }

  /** These calls among some actions, in order. */
  ghost function Starts(actions: seq<Action>): seq<StartCall> {
    if actions == [] then []
    else Starts(actions[..|actions| - 1]) + CallOf(actions[|actions| - 1])
  }

  /** The session was made by this call. */
  ghost predicate MadeBy(session: Session, start: StartCall) {
    && session.id == start.id
    && session.request == RequestText(start.duration)
    && session.peer == start.peer
  }

  /** Identifier, request and peer of a session never change. */
  ghost predicate SameSessions(sessions: seq<Session>, sessions': seq<Session>) {
    && |sessions| <= |sessions'|
    && forall s :: 0 <= s < |sessions| ==>
         && sessions'[s].id == sessions[s].id
         && sessions'[s].request == sessions[s].request
         && sessions'[s].peer == sessions[s].peer
  }

  lemma LegalKeepsSessions(v: View, v': View, s: SessionId, how: Motion)
    requires SessionMove(v, v', s, how)
    ensures SameSessions(v.sessions, v'.sessions)
    ensures |v'.sessions| == |v.sessions| + if how.Creating? then 1 else 0
  {
  }

  lemma SessionsKept(st: State, action: Action)
    requires Inv(st) && Enabled(st, action) && !action.Start?
    ensures SameSessions(st.sessions, Do(st, action).sessions)
    ensures |Do(st, action).sessions| == |st.sessions|
  {
    if !ByClose(action) {
      var a, t, how := ActionIsLegal(st, action);
      LegalKeepsSessions(ViewOf(st), ViewOf(Do(st, action)), t, how);
    }
  }

  lemma SessionMade(st: State, action: Action)
    requires Enabled(st, action) && action.Start?
    ensures |Do(st, action).sessions| == |st.sessions| + 1
    ensures SameSessions(st.sessions, Do(st, action).sessions)
    ensures MadeBy(Do(st, action).sessions[|st.sessions|], CallOf(action)[0])
  {
  }

  lemma StartsOfPrefix(actions: seq<Action>, n: nat)
    requires 0 < n <= |actions|
    ensures Starts(actions[..n]) == Starts(actions[..n - 1]) + CallOf(actions[n - 1])
  {
    assert actions[..n][..n - 1] == actions[..n - 1];
  }

  /** The sessions are those made by these calls, in this order. */
  ghost predicate MadeByAll(sessions: seq<Session>, starts: seq<StartCall>) {
    |sessions| == |starts| && forall s :: 0 <= s < |sessions| ==> MadeBy(sessions[s], starts[s])
  }

  lemma ActionKeepsMakers(st: State, action: Action, starts: seq<StartCall>)
    requires Inv(st) && Enabled(st, action) && MadeByAll(st.sessions, starts)
    ensures MadeByAll(Do(st, action).sessions, starts + CallOf(action))
  {
    if action.Start? {
      SessionMade(st, action);
    } else {
      SessionsKept(st, action);
    }
  }

  /** Every session belongs to the call that made it, for good. */
  lemma {:induction false} SessionsAreStarts(workers: nat, actions: seq<Action>, states: seq<State>, n: nat)
    requires Run(Performs, Init(workers), actions, states) && n <= |actions|
    ensures MadeByAll(states[n].sessions, Starts(actions[..n]))
    decreases n
  {
    if n > 0 {
      var st, action := states[n - 1], actions[n - 1];
      SessionsAreStarts(workers, actions, states, n - 1);
      StartsOfPrefix(actions, n);
      assert Performs(st, action, states[n]);
      RunKeepsInv(workers, actions, states, n - 1);
      ActionKeepsMakers(st, action, Starts(actions[..n - 1]));
    }
  }

  /**
   No cross-talk: in every interleaving with any number of other sessions, whatever their peers send, a
   session whose peer is a line service that answers what it has received of the bytes the session wrote,
   and whose callback reports no error, is called back once, under its own identifier, with the answer to
   its own request.
   */
  lemma {:induction false} NoCrossTalk(workers: nat, actions: seq<Action>, states: seq<State>,
                                       s: SessionId, received: string)
    requires Run(Performs, Init(workers), actions, states)
    requires s < |Starts(actions)| && s < |states[|actions|].sessions|
    requires received <= Carried(Launched(actions, states, |actions|, s))
    requires Starts(actions)[s].peer == LineService.Answer(received)
    requires var delivered := states[|actions|].sessions[s].delivered; delivered != [] && delivered[0].ec == Ok
    ensures var start := Starts(actions)[s];
            states[|actions|].sessions[s].delivered
            == [Delivery(start.id, "request is processed!: " + Operation(start.duration), Ok)]
  {
    var st, n := states[|actions|], |actions|;
    SessionsAreStarts(workers, actions, states, n);
    assert actions[..n] == actions;
    assert Reachable(workers, st);
    SuccessMeansAnswered(workers, st, s);
    CancellationIsLinearized(workers, st, s);
    SuccessMeansAllDone(workers, actions, states, n, s);
    CarriedByChain(st.sessions[s].request);
    NoAnswerToPart(Starts(actions)[s].duration, received);
    AnswerToRequest(Starts(actions)[s].duration);
  }
}
