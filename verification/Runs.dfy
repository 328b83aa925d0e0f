/** Induction over the states of a run. */
module Runs {
  /** What each step keeps holds from the first state where it does. */
  lemma {:induction false} Onward<S(!new), T(!new)>(
    states: seq<S>, steps: seq<T>, next: (S, T, S) -> bool, inv: S -> bool, i: nat, t: nat)
    requires |states| == |steps| + 1 && i <= t < |states|
    requires forall k :: 0 <= k < |steps| ==> next(states[k], steps[k], states[k + 1])
    requires inv(states[i])
    requires forall s, step, s' :: inv(s) && next(s, step, s') ==> inv(s')
    ensures inv(states[t])
    decreases t
  {
    if i < t {
      Onward(states, steps, next, inv, i, t - 1);
      assert next(states[t - 1], steps[t - 1], states[t - 1 + 1]);
    }
  }

  lemma Invariant<S(!new), T(!new)>(
    states: seq<S>, steps: seq<T>, next: (S, T, S) -> bool, inv: S -> bool, t: nat)
    requires |states| == |steps| + 1 && t < |states|
    requires forall k :: 0 <= k < |steps| ==> next(states[k], steps[k], states[k + 1])
    requires inv(states[0])
    requires forall s, step, s' :: inv(s) && next(s, step, s') ==> inv(s')
    ensures inv(states[t])
  {
    Onward(states, steps, next, inv, 0, t);
  }
}
