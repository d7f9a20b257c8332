/** Runs of a system that takes one enabled action at a time. */
module Runs {

  /** states[0] is the initial state and acts[i] leads from states[i] to states[i + 1]. */
  ghost predicate IsRun<S(!new), A(!new)>(init: S, next: (S, A, S) -> bool, states: seq<S>, acts: seq<A>) {
    && |states| == |acts| + 1
    && states[0] == init
    && forall i :: 0 <= i < |acts| ==> next(states[i], acts[i], states[i + 1])
  }

  ghost predicate Inductive<S(!new), A(!new)>(init: S, next: (S, A, S) -> bool, inv: S -> bool) {
    && inv(init)
    && forall s, a, t :: inv(s) && next(s, a, t) ==> inv(t)
  }

  lemma {:induction false} HoldsThroughout<S(!new), A(!new)>(init: S, next: (S, A, S) -> bool, inv: S -> bool,
                                                             states: seq<S>, acts: seq<A>, i: nat)
    requires Inductive(init, next, inv)
    requires IsRun(init, next, states, acts)
    requires i < |states|
    ensures inv(states[i])
    decreases i
  {
    if i > 0 {
      HoldsThroughout(init, next, inv, states, acts, i - 1);
      assert next(states[i - 1], acts[i - 1], states[i]);
    }
  }
}
