/** Runs of a state machine that is given by its steps: `step(st, action, st')`. */
module Runs {

  /** The actions are performed one after the other from `first` on, and these are the states between them. */
  ghost predicate Run<S(!new), A(!new)>(step: (S, A, S) -> bool, first: S, actions: seq<A>, states: seq<S>) {
    && |states| == |actions| + 1 && states[0] == first
    && forall i :: 0 <= i < |actions| ==> step(states[i], actions[i], states[i + 1])
  }

  /** Some run from `st` ends in `st'`. */
  ghost predicate Leads<S(!new), A(!new)>(step: (S, A, S) -> bool, st: S, st': S) {
    exists actions: seq<A>, states: seq<S> :: Run(step, st, actions, states) && states[|actions|] == st'
  }

  /** The states a run passes through are led to. */
  lemma PrefixOfRun<S(!new), A(!new)>(step: (S, A, S) -> bool, first: S, actions: seq<A>, states: seq<S>, n: nat)
    requires Run(step, first, actions, states) && n <= |actions|
    ensures Leads(step, first, states[n])
  {
    assert Run(step, first, actions[..n], states[..n + 1]);
    assert states[..n + 1][|actions[..n]|] == states[n];
  }

  lemma LeadsNowhere<S(!new), A(!new)>(step: (S, A, S) -> bool, st: S)
    ensures Leads(step, st, st)
  {
    var none: seq<A> := [];
    assert Run(step, st, none, [st]);
  }

  /** A run can be continued with any step from its last state. */
  lemma LeadsFurther<S(!new), A(!new)>(step: (S, A, S) -> bool, st: S, st': S, action: A, st'': S)
    requires Leads(step, st, st') && step(st', action, st'')
    ensures Leads(step, st, st'')
  {
    var actions: seq<A>, states: seq<S> :| Run(step, st, actions, states) && states[|actions|] == st';
    assert Run(step, st, actions + [action], states + [st'']);
    assert (states + [st''])[|actions + [action]|] == st'';
  }

  /** What every step keeps holds in every state of a run that starts with it. */
  lemma {:induction false} RunKeeps<S(!new), A(!new)>(
      step: (S, A, S) -> bool, inv: S -> bool, actions: seq<A>, states: seq<S>, n: nat)
    requires n <= |actions| < |states| && Run(step, states[0], actions, states) && inv(states[0])
    requires forall st, action, st' :: inv(st) && step(st, action, st') ==> inv(st')
    ensures inv(states[n])
    decreases n
  {
    if 0 < n {
      RunKeeps(step, inv, actions, states, n - 1);
      assert step(states[n - 1], actions[n - 1], states[n]);
    }
  }

  /** So it holds wherever such a run leads. */
  lemma {:induction false} LeadsKeeps<S(!new), A(!new)>(step: (S, A, S) -> bool, inv: S -> bool, st: S, st': S)
    requires Leads(step, st, st') && inv(st)
    requires forall s, action, s' :: inv(s) && step(s, action, s') ==> inv(s')
    ensures inv(st')
  {
    var actions: seq<A>, states: seq<S> :| Run(step, st, actions, states) && states[|actions|] == st';
    RunKeeps(step, inv, actions, states, |actions|);
  }

  /** What is seen in the first `n` steps of a run, one after the other. */
  ghost function Seen<S(!new), A(!new), T>(see: (S, A, S) -> seq<T>, actions: seq<A>, states: seq<S>, n: nat): seq<T>
    requires n <= |actions| < |states|
  {
    if n == 0 then [] else Seen(see, actions, states, n - 1) + see(states[n - 1], actions[n - 1], states[n])
  }

  /** What every step keeps of a state and of two things seen so far holds in every state of a run. */
  lemma {:induction false} RunKeepsSeen<S(!new), A(!new), T(!new), U(!new)>(
      step: (S, A, S) -> bool, see: (S, A, S) -> seq<T>, watch: (S, A, S) -> seq<U>,
      inv: (S, seq<T>, seq<U>) -> bool, actions: seq<A>, states: seq<S>, n: nat)
    requires n <= |actions| < |states| && Run(step, states[0], actions, states) && inv(states[0], [], [])
    requires forall st, action, st', ts, us :: inv(st, ts, us) && step(st, action, st') ==>
               inv(st', ts + see(st, action, st'), us + watch(st, action, st'))
    ensures inv(states[n], Seen(see, actions, states, n), Seen(watch, actions, states, n))
    decreases n
  {
    if 0 < n {
      RunKeepsSeen(step, see, watch, inv, actions, states, n - 1);
      assert step(states[n - 1], actions[n - 1], states[n - 1 + 1]);
    }
  }

  /** A mark that exactly some steps set, and none removes, is there if and only if such a step was taken. */
  lemma {:induction false} RunMarks<S(!new), A(!new)>(
      step: (S, A, S) -> bool, inv: S -> bool, mark: S -> bool, marks: (S, A) -> bool,
      actions: seq<A>, states: seq<S>, n: nat)
    requires n <= |actions| < |states| && Run(step, states[0], actions, states)
    requires inv(states[0]) && !mark(states[0])
    requires forall st, action, st' :: inv(st) && step(st, action, st') ==>
               inv(st') && (mark(st') <==> mark(st) || marks(st, action))
    ensures inv(states[n]) && (mark(states[n]) <==> exists i :: 0 <= i < n && marks(states[i], actions[i]))
    decreases n
  {
    if 0 < n {
      RunMarks(step, inv, mark, marks, actions, states, n - 1);
      assert step(states[n - 1], actions[n - 1], states[n - 1 + 1]);
    }
  }
}
