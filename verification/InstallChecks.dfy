/** The checks of what is already installed: one goroutine per wanted dependency, of which only
    as many as the semaphore admits are asking the cluster at any time. */
module InstallChecks {
  import opened Runs
  import opened Sequences

  const DEP_INSTALL_CHECK_CONCURRENCY := 8

  /** What the cluster answers: whether a dependency is installed or requested, or an error. */
  datatype Check = Installed(yes: bool) | CheckError

  datatype Checker = Waiting | Holding | Finished

  /** `sem` is how many entries the semaphore channel holds, `ended` are the checks that have
      ended, in order. The slots start out false. */
  datatype State = State(checkers: seq<Checker>, sem: nat, slots: seq<bool>, ended: seq<nat>, failed: bool)

  datatype Step = Acquire(j: nat) | Answer(j: nat) | Abort(j: nat)

  function Init(answers: seq<Check>): State {
    State(seq(|answers|, i => Waiting), 0, seq(|answers|, i => false), [], false)
  }

  /** A send on the semaphore waits for room, whether or not the group is cancelled. Once a check
      has failed, the context of the others is cancelled and any of them may fail as well. */
  predicate Enabled(answers: seq<Check>, s: State, step: Step) {
    step.j < |s.checkers| && step.j < |s.slots| && step.j < |answers|
    && match step
       case Acquire(j) => s.checkers[j].Waiting? && s.sem < DEP_INSTALL_CHECK_CONCURRENCY
       case Answer(j) => s.checkers[j].Holding? && s.sem > 0
       case Abort(j) => s.checkers[j].Holding? && s.sem > 0 && s.failed
  }

  /** Each check writes the slot of its own position, and then frees its place. */
  function Apply(answers: seq<Check>, s: State, step: Step): State
    requires Enabled(answers, s, step)
  {
    match step
    case Acquire(j) => s.(checkers := s.checkers[j := Holding], sem := s.sem + 1)
    case Answer(j) =>
      var done := s.(checkers := s.checkers[j := Finished], sem := s.sem - 1, ended := s.ended + [j]);
      if answers[j].CheckError? then done.(slots := s.slots[j := false], failed := true)
      else done.(slots := s.slots[j := answers[j].yes])
    case Abort(j) =>
      s.(checkers := s.checkers[j := Finished], sem := s.sem - 1, ended := s.ended + [j],
         slots := s.slots[j := false])
  }

  predicate Terminal(s: State) {
    forall j :: 0 <= j < |s.checkers| ==> s.checkers[j].Finished?
  }

  function Next(answers: seq<Check>): (State, Step, State) -> bool {
    (s: State, step: Step, t: State) => Enabled(answers, s, step) && t == Apply(answers, s, step)
  }

  /** Any interleaving of the checks, from the start. */
  ghost predicate IsRun(answers: seq<Check>, states: seq<State>, steps: seq<Step>) {
    Links(Init(answers), Next(answers), states, steps)
  }

  // ---- Who holds the semaphore ----

  function IsHolding(g: Checker): nat { if g.Holding? then 1 else 0 }

  function HoldingCount(gs: seq<Checker>): nat { Total(gs, IsHolding) }

  // ---- The invariant ----

  ghost predicate Inv(answers: seq<Check>, s: State) {
    && |s.checkers| == |s.slots| == |answers|
    && s.sem == HoldingCount(s.checkers) <= DEP_INSTALL_CHECK_CONCURRENCY
    && (s.failed ==> CheckError in answers)
    && (forall j :: 0 <= j < |answers| && s.checkers[j].Finished? && !s.failed ==> answers[j] == Installed(s.slots[j]))
    && (forall j: nat :: j in s.ended <==> j < |s.checkers| && s.checkers[j].Finished?)
    && (forall i, j :: 0 <= i < j < |s.ended| ==> s.ended[i] != s.ended[j])
  }

  lemma InitInv(answers: seq<Check>)
    ensures Inv(answers, Init(answers))
  {
    TotalSame(Init(answers).checkers, IsHolding, 0);
  }

  lemma StepKeepsInv(answers: seq<Check>, s: State, step: Step)
    requires Inv(answers, s) && Enabled(answers, s, step)
    ensures Inv(answers, Apply(answers, s, step))
  {
    var t := Apply(answers, s, step);
    TotalUpdate(s.checkers, step.j, t.checkers[step.j], IsHolding);
    if !step.Acquire? {
      assert t.ended[|s.ended|] == step.j && t.ended[..|s.ended|] == s.ended;
    }
  }

  lemma {:induction false} RunKeepsInv(answers: seq<Check>, states: seq<State>, steps: seq<Step>, i: nat)
    requires IsRun(answers, states, steps) && i < |states|
    ensures Inv(answers, states[i])
  {
    if i == 0 {
      InitInv(answers);
    } else {
      RunKeepsInv(answers, states, steps, i - 1);
      assert Next(answers)(states[i - 1], steps[i - 1], states[i]);
      StepKeepsInv(answers, states[i - 1], steps[i - 1]);
    }
  }

  // ---- What every run promises ----

  /** In no state of any run do more than eight checks hold the semaphore. */
  lemma NeverMoreThanEight(answers: seq<Check>, states: seq<State>, steps: seq<Step>, i: nat)
    requires IsRun(answers, states, steps) && i < |states|
    ensures HoldingCount(states[i].checkers) <= 8
  {
    RunKeepsInv(answers, states, steps, i);
  }

  /** As long as a check is unfinished, one that holds the semaphore or finds it free can step. */
  lemma SomeStep(answers: seq<Check>, s: State) returns (step: Step)
    requires Inv(answers, s) && !Terminal(s)
    ensures Enabled(answers, s, step)
  {
    var j :| 0 <= j < |s.checkers| && !s.checkers[j].Finished?;
    if k :| 0 <= k < |s.checkers| && s.checkers[k].Holding? {
      TotalAtLeast(s.checkers, k, IsHolding);
      step := Answer(k);
    } else {
      TotalSame(s.checkers, IsHolding, 0);
      step := Acquire(j);
    }
  }

  lemma NeverStuck(answers: seq<Check>, states: seq<State>, steps: seq<Step>, i: nat) returns (step: Step)
    requires IsRun(answers, states, steps) && i < |states| && !Terminal(states[i])
    ensures Enabled(answers, states[i], step)
  {
    RunKeepsInv(answers, states, steps, i);
    step := SomeStep(answers, states[i]);
  }

  function StepsLeft(g: Checker): nat {
    match g
    case Waiting => 2
    case Holding => 1
    case Finished => 0
  }

  function Remaining(gs: seq<Checker>): nat { Total(gs, StepsLeft) }

  lemma StepDecreases(answers: seq<Check>, s: State, step: Step)
    requires Enabled(answers, s, step)
    ensures Remaining(Apply(answers, s, step).checkers) == Remaining(s.checkers) - 1
  {
    TotalUpdate(s.checkers, step.j, Apply(answers, s, step).checkers[step.j], StepsLeft);
  }

  lemma {:induction false} RemainingAlongRun(answers: seq<Check>, states: seq<State>, steps: seq<Step>, i: nat)
    requires IsRun(answers, states, steps) && i < |states|
    ensures Remaining(states[i].checkers) + i == 2 * |answers|
  {
    if i == 0 {
      TotalSame(states[0].checkers, StepsLeft, 2);
    } else {
      RemainingAlongRun(answers, states, steps, i - 1);
      assert Next(answers)(states[i - 1], steps[i - 1], states[i]);
      StepDecreases(answers, states[i - 1], steps[i - 1]);
    }
  }

  /** No interleaving takes more than two steps per check. */
  lemma RunsAreBounded(answers: seq<Check>, states: seq<State>, steps: seq<Step>)
    requires IsRun(answers, states, steps)
    ensures |steps| <= 2 * |answers|
  {
    RemainingAlongRun(answers, states, steps, |steps|);
  }

  /** A finished run has made each check exactly once; it reports an error iff some check fails
      of itself, and otherwise every slot holds the answer of its own check. */
  lemma ChecksOutcome(answers: seq<Check>, s: State)
    requires Inv(answers, s) && Terminal(s)
    ensures forall j: nat :: j in s.ended <==> j < |answers|
    ensures forall i, j :: 0 <= i < j < |s.ended| ==> s.ended[i] != s.ended[j]
    ensures s.failed <==> CheckError in answers
    ensures !s.failed ==>
              |s.slots| == |answers| && forall j :: 0 <= j < |answers| ==> answers[j] == Installed(s.slots[j])
  {
    if CheckError in answers {
      var j :| 0 <= j < |answers| && answers[j] == CheckError;
      assert s.checkers[j].Finished?;
    }
  }

  /** Any schedule, run to its end. The run is returned for inspection. */
  method RunChecks(answers: seq<Check>)
    returns (installed: seq<bool>, failed: bool, ghost states: seq<State>, ghost steps: seq<Step>)
    ensures IsRun(answers, states, steps) && Terminal(states[|steps|])
    ensures installed == states[|steps|].slots && failed == states[|steps|].failed
    ensures |installed| == |answers|
    ensures failed <==> CheckError in answers
    ensures !failed ==> forall j :: 0 <= j < |answers| ==> answers[j] == Installed(installed[j])
    ensures forall i :: 0 <= i < |states| ==> HoldingCount(states[i].checkers) <= 8
  {
    var s := Init(answers);
    InitInv(answers);
    states, steps := [s], [];
    while !Terminal(s)
      invariant Inv(answers, s) && IsRun(answers, states, steps) && states[|steps|] == s
      decreases Remaining(s.checkers)
    {
      ghost var some := SomeStep(answers, s);
      var step :| Enabled(answers, s, step);
      StepKeepsInv(answers, s, step);
      StepDecreases(answers, s, step);
      LinksGrow(Init(answers), Next(answers), states, steps, step, Apply(answers, s, step));
      s := Apply(answers, s, step);
      states, steps := states + [s], steps + [step];
    }
    ChecksOutcome(answers, s);
    forall i | 0 <= i < |states| ensures HoldingCount(states[i].checkers) <= 8 {
      NeverMoreThanEight(answers, states, steps, i);
    }
    installed, failed := s.slots, s.failed;
  }
}
