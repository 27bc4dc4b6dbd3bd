/** Runs of a transition system: any interleaving, from a given start. */
module Runs {

  /** The states that a run goes through, and the steps between them. */
  ghost predicate Links<S(!new), A(!new)>(init: S, next: (S, A, S) -> bool, states: seq<S>, steps: seq<A>) {
    && |states| == |steps| + 1
    && states[0] == init
    && forall i :: 0 <= i < |steps| ==> next(states[i], steps[i], states[i + 1])
  }

  lemma LinksGrow<S(!new), A(!new)>(init: S, next: (S, A, S) -> bool, states: seq<S>, steps: seq<A>, step: A, t: S)
    requires Links(init, next, states, steps) && next(states[|steps|], step, t)
    ensures Links(init, next, states + [t], steps + [step])
  {
    var more, all := states + [t], steps + [step];
    forall i | 0 <= i < |all|
      ensures next(more[i], all[i], more[i + 1])
    {
      if i < |steps| {
        assert more[i] == states[i] && more[i + 1] == states[i + 1] && all[i] == steps[i];
      }
    }
  }
}
