/** What every interleaving of the backup pipeline keeps, and how it ends. */
module PipelineTheorems {
  import opened Pipeline
  import opened Runs
  import opened Sequences

  // ---- Where the workloads are ----

  function HeldBy(w: Worker, item: nat): nat {
    if (w.Resolving? || w.Delivering?) && w.item == item then 1 else 0
  }

  function HoldsItem(item: nat): Worker -> nat { (w: Worker) => HeldBy(w, item) }

  /** How many workers hold a workload. */
  function Holders(ws: seq<Worker>, item: nat): nat { Total(ws, HoldsItem(item)) }

  lemma HeadAndTail(q: seq<nat>)
    requires q != []
    ensures multiset(q) == multiset{q[0]} + multiset(q[1..])
    ensures q[0] in q && forall i :: i in q[1..] ==> i in q
  {
    assert q == [q[0]] + q[1..];
  }

  /** In how many places a workload is, over all channels, workers and logs. */
  function Places(s: State, item: nat): nat {
    multiset(s.workCh)[item] + Holders(s.workers, item) + multiset(s.dropped)[item] + multiset(s.abandoned)[item]
    + multiset(s.resolvedCh)[item] + multiset(s.written)[item]
  }

  /** Every workload sent so far is in exactly one place, and no other is anywhere. */
  ghost predicate Conserved(s: State) {
    forall item: nat :: Places(s, item) == if item < s.sent then 1 else 0
  }

  // ---- The invariant ----

  ghost predicate Control(c: Config, s: State) {
    && |s.workers| == c.workers
    && |s.workCh| <= c.workers && |s.resolvedCh| <= c.workers
    && s.sent <= c.items
    && (s.producer.Listing? ==> s.sent == 0)
    && (s.producer.Sending? ==> s.sent == s.producer.next)
    && (s.producer == Done(false) ==> s.sent == c.items)
    && (s.workClosed ==> s.producer.Done?)
    && (forall w :: 0 <= w < |s.workers| ==>
          && (s.workers[w] == Exited(false) ==> s.workClosed && s.workCh == [])
          && (s.workers[w] == Exited(true) ==> s.cancelled))
    && (s.resolvedClosed ==> AllExited(s.workers))
    && (s.writer == Stopped(false) ==> s.resolvedClosed && s.resolvedCh == [])
    && (s.writer == Stopped(true) ==> s.cancelled)
    && (s.abandoned != [] ==> s.cancelled)
  }

  predicate Resolvable(c: Config, i: nat) {
    i < |c.resolves| && c.resolves[i]
  }

  ghost predicate Classified(c: Config, s: State) {
    && (forall i :: i in s.workCh ==> i < c.items)
    && (forall w :: 0 <= w < |s.workers| && s.workers[w].Resolving? ==> s.workers[w].item < c.items)
    && (forall w :: 0 <= w < |s.workers| && s.workers[w].Delivering? ==> Resolvable(c, s.workers[w].item))
    && (forall i :: i in s.resolvedCh || i in s.written || i in s.abandoned ==> Resolvable(c, i))
    && (forall i :: i in s.dropped ==> i < c.items && (s.cancelled || !Resolvable(c, i)))
  }

  ghost predicate Inv(c: Config, s: State) {
    Control(c, s) && Classified(c, s) && Conserved(s)
  }

  lemma InitInv(c: Config)
    requires c.Valid()
    ensures Inv(c, Init(c))
  {
    forall item: nat ensures Places(Init(c), item) == 0 {
      TotalSame(Init(c).workers, HoldsItem(item), 0);
    }
  }

  predicate IsWorkerStep(step: Step) {
    step.Receive? || step.SeeClosed? || step.StopWorker? || step.ResolveOk? || step.ResolveFail? || step.Deliver?
  }

  lemma WorkerStepKeepsControl(c: Config, s: State, step: Step)
    requires c.Valid() && Control(c, s) && Enabled(c, s, step) && IsWorkerStep(step)
    ensures Control(c, Apply(c, s, step))
  {
    var t := Apply(c, s, step);
    assert |t.workers| == |s.workers|;
    forall w | 0 <= w < |t.workers|
      ensures t.workers[w] == Exited(false) ==> t.workClosed && t.workCh == []
      ensures t.workers[w] == Exited(true) ==> t.cancelled
    {
      assert w == step.w || t.workers[w] == s.workers[w];
    }
  }

  lemma OtherStepKeepsControl(c: Config, s: State, step: Step)
    requires c.Valid() && Control(c, s) && Enabled(c, s, step) && !IsWorkerStep(step)
    ensures Control(c, Apply(c, s, step))
  {
  }

  lemma WorkerStepKeepsClassified(c: Config, s: State, step: Step)
    requires c.Valid() && Control(c, s) && Classified(c, s) && Enabled(c, s, step) && IsWorkerStep(step)
    ensures Classified(c, Apply(c, s, step))
  {
    var t := Apply(c, s, step);
    if step.Receive? {
      HeadAndTail(s.workCh);
    }
    forall w | 0 <= w < |t.workers|
      ensures t.workers[w].Resolving? ==> t.workers[w].item < c.items
      ensures t.workers[w].Delivering? ==> Resolvable(c, t.workers[w].item)
    {
      assert w == step.w || t.workers[w] == s.workers[w];
    }
  }

  lemma OtherStepKeepsClassified(c: Config, s: State, step: Step)
    requires c.Valid() && Control(c, s) && Classified(c, s) && Enabled(c, s, step) && !IsWorkerStep(step)
    ensures Classified(c, Apply(c, s, step))
  {
    var t := Apply(c, s, step);
    assert t.workers == s.workers && t.dropped == s.dropped && t.abandoned == s.abandoned;
    if step.Take? {
      HeadAndTail(s.resolvedCh);
    } else if step.Send? {
      assert forall i :: i in t.workCh ==> i in s.workCh || i == s.sent;
    }
  }

  lemma ReceiveKeepsPlaces(c: Config, s: State, w: nat, item: nat)
    requires Enabled(c, s, Receive(w))
    ensures Places(Apply(c, s, Receive(w)), item) == Places(s, item)
  {
    TotalUpdate(s.workers, w, Resolving(s.workCh[0]), HoldsItem(item));
    TailCount(s.workCh, item);
  }

  lemma StopKeepsPlaces(c: Config, s: State, w: nat, item: nat)
    requires Enabled(c, s, StopWorker(w))
    ensures Places(Apply(c, s, StopWorker(w)), item) == Places(s, item)
  {
    TotalUpdate(s.workers, w, Exited(true), HoldsItem(item));
    if s.workers[w].Delivering? {
      AppendCount(s.abandoned, s.workers[w].item, item);
    }
  }

  lemma DropKeepsPlaces(c: Config, s: State, w: nat, item: nat)
    requires Enabled(c, s, ResolveFail(w))
    ensures Places(Apply(c, s, ResolveFail(w)), item) == Places(s, item)
  {
    TotalUpdate(s.workers, w, Idle, HoldsItem(item));
    AppendCount(s.dropped, s.workers[w].item, item);
  }

  lemma PassOnKeepsPlaces(c: Config, s: State, step: Step, item: nat)
    requires Enabled(c, s, step) && (step.ResolveOk? || step.Deliver?)
    ensures Places(Apply(c, s, step), item) == Places(s, item)
  {
    TotalUpdate(s.workers, step.w, Apply(c, s, step).workers[step.w], HoldsItem(item));
    if step.Deliver? {
      AppendCount(s.resolvedCh, s.workers[step.w].item, item);
    }
  }

  lemma WorkerStepKeepsPlaces(c: Config, s: State, step: Step, item: nat)
    requires Enabled(c, s, step) && IsWorkerStep(step)
    ensures Places(Apply(c, s, step), item) == Places(s, item)
  {
    if step.Receive? {
      ReceiveKeepsPlaces(c, s, step.w, item);
    } else if step.ResolveOk? || step.Deliver? {
      PassOnKeepsPlaces(c, s, step, item);
    } else if step.StopWorker? {
      StopKeepsPlaces(c, s, step.w, item);
    } else if step.ResolveFail? {
      DropKeepsPlaces(c, s, step.w, item);
    } else {
      TotalUpdate(s.workers, step.w, Exited(false), HoldsItem(item));
    }
  }

  lemma TakeKeepsPlaces(c: Config, s: State, item: nat)
    requires Enabled(c, s, Take)
    ensures Places(Apply(c, s, Take), item) == Places(s, item)
  {
    TailCount(s.resolvedCh, item);
    AppendCount(s.written, s.resolvedCh[0], item);
  }

  lemma OtherStepKeepsPlaces(c: Config, s: State, step: Step, item: nat)
    requires Control(c, s) && Enabled(c, s, step) && !IsWorkerStep(step)
    ensures Places(Apply(c, s, step), item) == Places(s, item) + if step.Send? && item == s.sent then 1 else 0
  {
    if step.Send? {
      AppendCount(s.workCh, s.producer.next, item);
    } else if step.Take? {
      TakeKeepsPlaces(c, s, item);
    }
  }

  lemma StepConserves(c: Config, s: State, step: Step)
    requires Control(c, s) && Conserved(s) && Enabled(c, s, step)
    ensures Conserved(Apply(c, s, step))
  {
    var t := Apply(c, s, step);
    forall item: nat
      ensures Places(t, item) == if item < t.sent then 1 else 0
    {
      if IsWorkerStep(step) {
        WorkerStepKeepsPlaces(c, s, step, item);
      } else {
        OtherStepKeepsPlaces(c, s, step, item);
      }
    }
  }

  lemma StepKeepsInv(c: Config, s: State, step: Step)
    requires c.Valid() && Inv(c, s) && Enabled(c, s, step)
    ensures Inv(c, Apply(c, s, step))
  {
    if IsWorkerStep(step) {
      WorkerStepKeepsControl(c, s, step);
      WorkerStepKeepsClassified(c, s, step);
    } else {
      OtherStepKeepsControl(c, s, step);
      OtherStepKeepsClassified(c, s, step);
    }
    StepConserves(c, s, step);
  }

  lemma {:induction false} RunKeepsInv(c: Config, states: seq<State>, steps: seq<Step>, i: nat)
    requires c.Valid() && IsRun(c, states, steps) && i < |states|
    ensures Inv(c, states[i])
  {
    if i == 0 {
      InitInv(c);
    } else {
      RunKeepsInv(c, states, steps, i - 1);
      assert Next(c)(states[i - 1], steps[i - 1], states[i]);
      StepKeepsInv(c, states[i - 1], steps[i - 1]);
    }
  }

  // ---- Safety of the channels ----

  /** In no state of no run can a goroutine send on a channel that is closed. */
  lemma NoSendOnClosedChannel(c: Config, states: seq<State>, steps: seq<Step>, i: nat)
    requires c.Valid() && IsRun(c, states, steps) && i < |states|
    ensures states[i].workClosed ==> !states[i].producer.Sending?
    ensures states[i].resolvedClosed ==> forall w :: 0 <= w < |states[i].workers| ==> !states[i].workers[w].Delivering?
  {
    RunKeepsInv(c, states, steps, i);
  }

  // ---- Progress ----

  /** Until every goroutine has returned, one of them can step, cancelled or not. */
  lemma NeverStuck(c: Config, states: seq<State>, steps: seq<Step>, i: nat) returns (step: Step)
    requires c.Valid() && IsRun(c, states, steps) && i < |states| && !Terminal(states[i])
    ensures step != Cancel && Enabled(c, states[i], step)
  {
    RunKeepsInv(c, states, steps, i);
    step := SomeStep(c, states[i]);
  }

  lemma SomeStep(c: Config, s: State) returns (step: Step)
    requires c.Valid() && Inv(c, s) && !Terminal(s)
    ensures step != Cancel && Enabled(c, s, step)
  {
    if s.producer.Listing? {
      step := if c.listFails then ListFail else List;
    } else if s.producer.Done? && !s.workClosed {
      step := CloseWork;
    } else if s.producer == Done(true) && !s.cancelled {
      step := FailGroup;
    } else if w :| 0 <= w < |s.workers| && !s.workers[w].Exited? {
      step := WorkersStep(c, s, w);
    } else if s.producer.Sending? {
      // all workers returned while the producer is still sending: only a cancellation does that
      assert s.workers[0].Exited?;
      assert s.cancelled;
      step := if s.producer.next < c.items then StopSending else FinishSending;
    } else if !s.resolvedClosed {
      step := CloseResolved;
    } else {
      step := if s.resolvedCh != [] then Take else FinishWriting;
    }
  }

  /** A worker that is still up can step, or whoever it waits for can. */
  lemma WorkersStep(c: Config, s: State, w: nat) returns (step: Step)
    requires c.Valid() && Inv(c, s) && !s.producer.Listing? && (s.producer.Done? ==> s.workClosed)
    requires w < |s.workers| && !s.workers[w].Exited?
    ensures step != Cancel && Enabled(c, s, step)
  {
    match s.workers[w]
    case Idle =>
      if s.workCh != [] {
        step := Receive(w);
      } else if s.workClosed {
        step := SeeClosed(w);
      } else {
        step := if s.producer.next < c.items then Send else FinishSending;
      }
    case Resolving(i) =>
      step := if c.resolves[i] then ResolveOk(w) else ResolveFail(w);
    case Delivering(i) =>
      if |s.resolvedCh| < c.workers {
        step := Deliver(w);
      } else {
        step := if s.writer.Receiving? then Take else StopWorker(w);
      }
  }

  // ---- Termination ----

  function WorkerWeight(w: Worker): nat {
    match w
    case Idle => 1
    case Resolving(_) => 4
    case Delivering(_) => 3
    case Exited(_) => 0
  }

  /** How much is left to do: each workload takes at most five steps, each worker one more. */
  ghost function Measure(c: Config, s: State): nat
    requires s.sent <= c.items
  {
    (match s.producer
     case Listing => 2 + 5 * (c.items - s.sent)
     case Sending(_) => 1 + 5 * (c.items - s.sent)
     case Done(_) => 0)
    + 4 * |s.workCh| + Total(s.workers, WorkerWeight) + |s.resolvedCh|
    + (if s.workClosed then 0 else 1) + (if s.resolvedClosed then 0 else 1)
    + (if s.writer.Receiving? then 1 else 0) + (if s.cancelled then 0 else 1)
  }

  lemma WorkerStepDecreases(c: Config, s: State, step: Step)
    requires Control(c, s) && Enabled(c, s, step) && IsWorkerStep(step)
    ensures Measure(c, Apply(c, s, step)) < Measure(c, s)
  {
    TotalUpdate(s.workers, step.w, Apply(c, s, step).workers[step.w], WorkerWeight);
  }

  lemma OtherStepDecreases(c: Config, s: State, step: Step)
    requires Control(c, s) && Enabled(c, s, step) && !IsWorkerStep(step)
    ensures Apply(c, s, step).sent <= c.items
    ensures Measure(c, Apply(c, s, step)) < Measure(c, s)
  {
  }

  lemma InitMeasure(c: Config)
    requires c.Valid()
    ensures Measure(c, Init(c)) == 5 * c.items + c.workers + 6
  {
    TotalSame(Init(c).workers, WorkerWeight, 1);
  }

  lemma {:induction false} MeasureAlongRun(c: Config, states: seq<State>, steps: seq<Step>, i: nat)
    requires c.Valid() && IsRun(c, states, steps) && i < |states|
    ensures states[i].sent <= c.items
    ensures Measure(c, states[i]) + i <= Measure(c, Init(c))
  {
    RunKeepsInv(c, states, steps, i);
    if i > 0 {
      MeasureAlongRun(c, states, steps, i - 1);
      RunKeepsInv(c, states, steps, i - 1);
      if IsWorkerStep(steps[i - 1]) {
        WorkerStepDecreases(c, states[i - 1], steps[i - 1]);
      } else {
        OtherStepDecreases(c, states[i - 1], steps[i - 1]);
      }
    }
  }

  /** No interleaving goes on for longer than this, cancellations included. */
  lemma RunsAreBounded(c: Config, states: seq<State>, steps: seq<Step>)
    requires c.Valid() && IsRun(c, states, steps)
    ensures |steps| <= 5 * c.items + c.workers + 6
  {
    MeasureAlongRun(c, states, steps, |steps|);
    InitMeasure(c);
  }

  // ---- Exactly-once delivery ----

  /** In every state of every run the writer has taken each workload at most once, and only
      workloads that were resolved. */
  lemma DeliveredAtMostOnce(c: Config, states: seq<State>, steps: seq<Step>, i: nat, item: nat)
    requires c.Valid() && IsRun(c, states, steps) && i < |states|
    ensures multiset(states[i].written)[item] <= 1
    ensures item in states[i].written ==> Resolvable(c, item)
  {
    RunKeepsInv(c, states, steps, i);
    assert Places(states[i], item) <= 1;
  }

  /** A run that ends without cancellation has handed the writer exactly the resolvable
      workloads, each exactly once, and dropped exactly the others. */
  lemma DeliveredExactlyOnce(c: Config, states: seq<State>, steps: seq<Step>, item: nat)
    requires c.Valid() && IsRun(c, states, steps)
    requires Terminal(states[|steps|]) && !states[|steps|].cancelled
    ensures multiset(states[|steps|].written)[item] == if Resolvable(c, item) then 1 else 0
    ensures multiset(states[|steps|].dropped)[item] == if item < c.items && !Resolvable(c, item) then 1 else 0
  {
    RunKeepsInv(c, states, steps, |steps|);
    var s := states[|steps|];
    assert s.workers[0] == Exited(false);
    TotalSame(s.workers, HoldsItem(item), 0);
    assert s.workCh == [] && s.resolvedCh == [] && s.abandoned == [];
    assert Places(s, item) == multiset(s.dropped)[item] + multiset(s.written)[item];
  }

  /** If the listing works, only the outside can cancel a run: no goroutine fails of itself. */
  lemma {:induction false} OnlyOutsideCancels(c: Config, states: seq<State>, steps: seq<Step>, i: nat)
    requires c.Valid() && IsRun(c, states, steps) && i < |states|
    requires !c.listFails && Cancel !in steps
    ensures !states[i].cancelled && states[i].producer != Done(true)
    decreases i
  {
    if i > 0 {
      OnlyOutsideCancels(c, states, steps, i - 1);
      assert Next(c)(states[i - 1], steps[i - 1], states[i]);
      assert steps[i - 1] in steps;
      StepStaysUncancelled(c, states[i - 1], steps[i - 1]);
    } else {
      assert states[0] == Init(c);
    }
  }

  lemma StepStaysUncancelled(c: Config, s: State, step: Step)
    requires Enabled(c, s, step) && step != Cancel && !c.listFails && !s.cancelled && s.producer != Done(true)
    ensures !Apply(c, s, step).cancelled && Apply(c, s, step).producer != Done(true)
  {
  }

  /** In terms of the environment alone: if the listing works and nobody cancels from outside,
      every finished run hands the writer each resolvable workload exactly once. */
  lemma DeliveredUnlessDisturbed(c: Config, states: seq<State>, steps: seq<Step>, item: nat)
    requires c.Valid() && IsRun(c, states, steps) && Terminal(states[|steps|])
    requires !c.listFails && Cancel !in steps
    ensures multiset(states[|steps|].written)[item] == if Resolvable(c, item) then 1 else 0
    ensures multiset(states[|steps|].dropped)[item] == if item < c.items && !Resolvable(c, item) then 1 else 0
  {
    OnlyOutsideCancels(c, states, steps, |steps|);
    DeliveredExactlyOnce(c, states, steps, item);
  }

  /** If the listing fails, nothing is ever sent, dropped or written, and every finished run has the
      producer's error and is cancelled. */
  lemma FailedListingSendsNothing(c: Config, states: seq<State>, steps: seq<Step>, i: nat)
    requires c.Valid() && IsRun(c, states, steps) && i < |states| && c.listFails
    ensures states[i].sent == 0 && states[i].written == [] && states[i].dropped == []
    ensures Terminal(states[i]) ==> states[i].producer == Done(true) && states[i].cancelled
  {
    NeverSendsAfterFailure(c, states, steps, i);
    RunKeepsInv(c, states, steps, i);
    LoggedIsPlaced(states[i]);
  }

  lemma LoggedIsPlaced(s: State)
    ensures s.written != [] ==> Places(s, s.written[0]) > 0
    ensures s.dropped != [] ==> Places(s, s.dropped[0]) > 0
  {
    FirstCounts(s.written);
    FirstCounts(s.dropped);
  }

  lemma {:induction false} NeverSendsAfterFailure(c: Config, states: seq<State>, steps: seq<Step>, i: nat)
    requires c.Valid() && IsRun(c, states, steps) && i < |states| && c.listFails
    ensures states[i].sent == 0 && (states[i].producer.Listing? || states[i].producer == Done(true))
  {
    if i > 0 {
      NeverSendsAfterFailure(c, states, steps, i - 1);
      assert Next(c)(states[i - 1], steps[i - 1], states[i]);
      StepAfterFailure(c, states[i - 1], steps[i - 1]);
    } else {
      assert states[0] == Init(c);
    }
  }

  lemma StepAfterFailure(c: Config, s: State, step: Step)
    requires Enabled(c, s, step) && c.listFails && s.sent == 0
    requires s.producer.Listing? || s.producer == Done(true)
    ensures var t := Apply(c, s, step); t.sent == 0 && (t.producer.Listing? || t.producer == Done(true))
  {
  }

  /** A run that ends cancelled loses nothing without trace: every workload sent was written,
      dropped, given up by a stopping worker, or left in a channel, and in one of these only. */
  lemma CancelledRunAccounts(c: Config, states: seq<State>, steps: seq<Step>, item: nat)
    requires c.Valid() && IsRun(c, states, steps) && Terminal(states[|steps|])
    ensures var s := states[|steps|];
            multiset(s.workCh)[item] + multiset(s.dropped)[item] + multiset(s.abandoned)[item]
            + multiset(s.resolvedCh)[item] + multiset(s.written)[item] == if item < s.sent then 1 else 0
  {
    RunKeepsInv(c, states, steps, |steps|);
    TotalSame(states[|steps|].workers, HoldsItem(item), 0);
    assert Places(states[|steps|], item) == if item < states[|steps|].sent then 1 else 0;
  }

  /** Any schedule, run to its end: goroutines take steps in whatever order, the context may
      be cancelled at any moment, and it always ends with everything returned. */
  method RunPipeline(c: Config) returns (s: State)
    requires c.Valid()
    ensures Inv(c, s) && Terminal(s)
    ensures !s.cancelled ==> forall i :: 0 <= i < c.items ==>
              multiset(s.written)[i] == (if c.resolves[i] then 1 else 0)
                  && multiset(s.dropped)[i] == (if c.resolves[i] then 0 else 1)
  {
    s := Init(c);
    InitInv(c);
    ghost var states, steps := [s], [];
    while !Terminal(s)
      invariant Inv(c, s) && IsRun(c, states, steps) && states[|steps|] == s
      decreases Measure(c, s)
    {
      ghost var some := SomeStep(c, s);
      var step :| Enabled(c, s, step);
      StepKeepsInv(c, s, step);
      if IsWorkerStep(step) {
        WorkerStepDecreases(c, s, step);
      } else {
        OtherStepDecreases(c, s, step);
      }
      ghost var more := states + [Apply(c, s, step)];
      LinksGrow(Init(c), Next(c), states, steps, step, Apply(c, s, step));
      states, steps := more, steps + [step];
      s := Apply(c, s, step);
    }
    if !s.cancelled {
      forall i | 0 <= i < c.items
        ensures multiset(s.written)[i] == (if c.resolves[i] then 1 else 0)
        ensures multiset(s.dropped)[i] == (if c.resolves[i] then 0 else 1)
      {
        DeliveredExactlyOnce(c, states, steps, i);
      }
    }
  }
}
