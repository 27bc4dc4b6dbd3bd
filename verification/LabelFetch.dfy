/** The parallel label lookup: the calling goroutine feeds a queue and collects the results, a
    pool of workers asks the API in between. Lookups are named by their position. */
module LabelFetch {
  import opened Runs
  import opened Sequences

  datatype Answer = Label(has: bool) | Error

  /** One key and one answer for each lookup; the pool has up to ten workers. */
  datatype Config = Config(keys: seq<string>, answers: seq<Answer>) {
    predicate Valid() { |keys| == |answers| && |keys| > 0 }

    function Size(): nat { |keys| }

    function Workers(): nat { if |keys| < MAX_LABEL_FETCH_WORKERS then |keys| else MAX_LABEL_FETCH_WORKERS }
  }

  const MAX_LABEL_FETCH_WORKERS := 10

  datatype Worker = Idle | Asking(item: nat) | Holding(item: nat) | Exited

  datatype Verdict = Pending | Success | Failed

  datatype State = State(
    fed: nat,
    workCh: seq<nat>,
    workClosed: bool,
    workers: seq<Worker>,
    queried: seq<nat>,    // the lookups that were sent to the API, in order
    resultCh: seq<nat>,
    resultClosed: bool,
    collected: seq<nat>,  // the results that were taken, in order
    cache: map<string, bool>,
    verdict: Verdict)

  function Init(c: Config): State {
    State(0, [], false, seq(c.Workers(), i => Idle), [], [], false, [], map[], Pending)
  }

  datatype Step =
    | Feed | CloseWork
    | Take(w: nat) | Ask(w: nat) | Put(w: nat) | Exit(w: nat)
    | CloseResults | Collect | Finish

  predicate AllExited(ws: seq<Worker>) {
    forall w :: 0 <= w < |ws| ==> ws[w].Exited?
  }

  /** Both channels hold as many entries as there are lookups. */
  predicate Enabled(c: Config, s: State, step: Step) {
    match step
    case Feed => s.fed < c.Size() && |s.workCh| < c.Size()
    case CloseWork => s.fed >= c.Size() && !s.workClosed
    case Take(w) => w < |s.workers| && s.workers[w].Idle? && s.workCh != []
    case Ask(w) => w < |s.workers| && s.workers[w].Asking?
    case Put(w) => w < |s.workers| && s.workers[w].Holding? && |s.resultCh| < c.Size()
    case Exit(w) => w < |s.workers| && s.workers[w].Idle? && s.workCh == [] && s.workClosed
    case CloseResults => s.workClosed && AllExited(s.workers) && !s.resultClosed
    case Collect => s.workClosed && s.verdict.Pending? && s.resultCh != []
    case Finish => s.workClosed && s.verdict.Pending? && s.resultCh == [] && s.resultClosed
  }

  /** The collector returns on the first error it takes; the workers carry on regardless. */
  function Apply(c: Config, s: State, step: Step): State
    requires c.Valid() && Enabled(c, s, step)
  {
    match step
    case Feed => s.(workCh := s.workCh + [s.fed], fed := s.fed + 1)
    case CloseWork => s.(workClosed := true)
    case Take(w) => s.(workers := s.workers[w := Asking(s.workCh[0])], workCh := s.workCh[1..])
    case Ask(w) => s.(workers := s.workers[w := Holding(s.workers[w].item)], queried := s.queried + [s.workers[w].item])
    case Put(w) => s.(workers := s.workers[w := Idle], resultCh := s.resultCh + [s.workers[w].item])
    case Exit(w) => s.(workers := s.workers[w := Exited])
    case CloseResults => s.(resultClosed := true)
    case Collect =>
      var item := s.resultCh[0];
      var taken := s.(resultCh := s.resultCh[1..], collected := s.collected + [item]);
      if item >= c.Size() || c.answers[item].Error? then taken.(verdict := Failed)
      else taken.(cache := s.cache[c.keys[item] := c.answers[item].has])
    case Finish => s.(verdict := Success)
  }

  predicate Terminal(s: State) {
    s.workClosed && AllExited(s.workers) && s.resultClosed && !s.verdict.Pending?
  }

  function Next(c: Config): (State, Step, State) -> bool
    requires c.Valid()
  {
    (s: State, step: Step, t: State) => Enabled(c, s, step) && t == Apply(c, s, step)
  }

  /** Any interleaving of the feeder, the workers and the collector, from the start. */
  ghost predicate IsRun(c: Config, states: seq<State>, steps: seq<Step>)
    requires c.Valid()
  {
    Links(Init(c), Next(c), states, steps)
  }

  // ---- Where the lookups are ----

  function BusyWith(w: Worker, item: nat): nat { if (w.Asking? || w.Holding?) && w.item == item then 1 else 0 }

  function HasAsked(w: Worker, item: nat): nat { if w.Holding? && w.item == item then 1 else 0 }

  function IsBusy(w: Worker): nat { if w.Asking? || w.Holding? then 1 else 0 }

  function WorkerWeight(w: Worker): nat {
    match w
    case Idle => 1
    case Asking(_) => 4
    case Holding(_) => 3
    case Exited => 0
  }

  function BusyWithItem(item: nat): Worker -> nat { (w: Worker) => BusyWith(w, item) }

  function AskedItem(item: nat): Worker -> nat { (w: Worker) => HasAsked(w, item) }

  function Places(s: State, item: nat): nat {
    multiset(s.workCh)[item] + Total(s.workers, BusyWithItem(item)) + multiset(s.resultCh)[item]
        + multiset(s.collected)[item]
  }

  function Asked(s: State, item: nat): nat {
    Total(s.workers, AskedItem(item)) + multiset(s.resultCh)[item] + multiset(s.collected)[item]
  }

  /** Every lookup fed so far is in one place, and has been asked once if it got that far. */
  ghost predicate Conserved(s: State) {
    && (forall item: nat :: Places(s, item) == if item < s.fed then 1 else 0)
    && (forall item: nat :: multiset(s.queried)[item] == Asked(s, item))
    && |s.workCh| + Total(s.workers, IsBusy) + |s.resultCh| + |s.collected| == s.fed
  }

  /** The cache that results from collecting in a given order: the last one with a key wins. */
  function CacheOf(c: Config, collected: seq<nat>): map<string, bool>
    requires c.Valid()
  {
    if collected == [] then map[]
    else
      var item := collected[|collected| - 1];
      var earlier := CacheOf(c, collected[..|collected| - 1]);
      if item < c.Size() && c.answers[item].Label? then earlier[c.keys[item] := c.answers[item].has] else earlier
  }

  ghost predicate Control(c: Config, s: State)
    requires c.Valid()
  {
    && |s.workers| == c.Workers()
    && s.fed <= c.Size()
    && (s.workClosed ==> s.fed == c.Size())
    && (forall w :: 0 <= w < |s.workers| && s.workers[w].Exited? ==> s.workClosed && s.workCh == [])
    && (s.resultClosed ==> s.workClosed && AllExited(s.workers))
    && s.cache == CacheOf(c, s.collected)
    && (s.verdict.Success? ==> s.resultClosed && s.resultCh == [])
    && (!s.verdict.Failed? <==> forall i :: i in s.collected ==> i < c.Size() && c.answers[i].Label?)
    && (s.collected != [] ==> s.workClosed)
  }

  ghost predicate Inv(c: Config, s: State)
    requires c.Valid()
  {
    Control(c, s) && Conserved(s)
  }

  lemma InitInv(c: Config)
    requires c.Valid()
    ensures Inv(c, Init(c))
  {
    var s := Init(c);
    forall item: nat
      ensures Total(s.workers, BusyWithItem(item)) == 0 && Total(s.workers, AskedItem(item)) == 0
    {
      TotalSame(s.workers, BusyWithItem(item), 0);
      TotalSame(s.workers, AskedItem(item), 0);
    }
    TotalSame(s.workers, IsBusy, 0);
  }

  predicate IsWorkerStep(step: Step) { step.Take? || step.Ask? || step.Put? || step.Exit? }

  lemma WorkerStepKeepsControl(c: Config, s: State, step: Step)
    requires c.Valid() && Control(c, s) && Enabled(c, s, step) && IsWorkerStep(step)
    ensures Control(c, Apply(c, s, step))
  {
    var t := Apply(c, s, step);
    forall w | 0 <= w < |t.workers| && t.workers[w].Exited? ensures t.workClosed && t.workCh == [] {
      assert w == step.w || t.workers[w] == s.workers[w];
    }
  }

  lemma CollectKeepsControl(c: Config, s: State)
    requires c.Valid() && Control(c, s) && Enabled(c, s, Collect)
    ensures Control(c, Apply(c, s, Collect))
  {
    var t := Apply(c, s, Collect);
    assert t.workers == s.workers;
    assert t.collected[..|t.collected| - 1] == s.collected;
    CollectKeepsVerdict(c, s);
  }

  lemma OtherStepKeepsControl(c: Config, s: State, step: Step)
    requires c.Valid() && Control(c, s) && Enabled(c, s, step) && !IsWorkerStep(step) && !step.Collect?
    ensures Control(c, Apply(c, s, step))
  {
  }

  lemma StepKeepsControl(c: Config, s: State, step: Step)
    requires c.Valid() && Control(c, s) && Enabled(c, s, step)
    ensures Control(c, Apply(c, s, step))
  {
    if IsWorkerStep(step) {
      WorkerStepKeepsControl(c, s, step);
    } else if step.Collect? {
      CollectKeepsControl(c, s);
    } else {
      OtherStepKeepsControl(c, s, step);
    }
  }

  lemma CollectKeepsVerdict(c: Config, s: State)
    requires c.Valid() && Control(c, s) && Enabled(c, s, Collect)
    ensures var t := Apply(c, s, Collect);
            !t.verdict.Failed? <==> forall i :: i in t.collected ==> i < c.Size() && c.answers[i].Label?
  {
    var item := s.resultCh[0];
    assert item in s.collected + [item];
  }

  lemma WorkerStepKeepsPlaces(c: Config, s: State, step: Step, item: nat)
    requires c.Valid() && Enabled(c, s, step) && IsWorkerStep(step)
    ensures Places(Apply(c, s, step), item) == Places(s, item)
  {
    if step.Take? {
      TakeKeepsPlaces(c, s, step, item);
    } else if step.Put? {
      PutKeepsPlaces(c, s, step, item);
    } else {
      TotalUpdate(s.workers, step.w, Apply(c, s, step).workers[step.w], BusyWithItem(item));
    }
  }

  lemma TakeKeepsPlaces(c: Config, s: State, step: Step, item: nat)
    requires c.Valid() && Enabled(c, s, step) && step.Take?
    ensures Places(Apply(c, s, step), item) == Places(s, item)
  {
    TotalUpdate(s.workers, step.w, Apply(c, s, step).workers[step.w], BusyWithItem(item));
    TailCount(s.workCh, item);
  }

  lemma PutKeepsPlaces(c: Config, s: State, step: Step, item: nat)
    requires c.Valid() && Enabled(c, s, step) && step.Put?
    ensures Places(Apply(c, s, step), item) == Places(s, item)
  {
    TotalUpdate(s.workers, step.w, Apply(c, s, step).workers[step.w], BusyWithItem(item));
    AppendCount(s.resultCh, s.workers[step.w].item, item);
  }

  lemma OtherStepKeepsPlaces(c: Config, s: State, step: Step, item: nat)
    requires c.Valid() && Enabled(c, s, step) && !IsWorkerStep(step)
    ensures Places(Apply(c, s, step), item) == Places(s, item) + if step.Feed? && item == s.fed then 1 else 0
  {
    if step.Feed? {
      AppendCount(s.workCh, s.fed, item);
    } else if step.Collect? {
      TailCount(s.resultCh, item);
      AppendCount(s.collected, s.resultCh[0], item);
    }
  }

  lemma WorkerStepKeepsAsked(c: Config, s: State, step: Step, item: nat)
    requires c.Valid() && Enabled(c, s, step) && IsWorkerStep(step)
    requires multiset(s.queried)[item] == Asked(s, item)
    ensures multiset(Apply(c, s, step).queried)[item] == Asked(Apply(c, s, step), item)
  {
    TotalUpdate(s.workers, step.w, Apply(c, s, step).workers[step.w], AskedItem(item));
    if step.Ask? {
      AppendCount(s.queried, s.workers[step.w].item, item);
    } else if step.Put? {
      AppendCount(s.resultCh, s.workers[step.w].item, item);
    }
  }

  lemma OtherStepKeepsAsked(c: Config, s: State, step: Step, item: nat)
    requires c.Valid() && Enabled(c, s, step) && !IsWorkerStep(step)
    requires multiset(s.queried)[item] == Asked(s, item)
    ensures multiset(Apply(c, s, step).queried)[item] == Asked(Apply(c, s, step), item)
  {
    if step.Collect? {
      TailCount(s.resultCh, item);
      AppendCount(s.collected, s.resultCh[0], item);
    }
  }

  lemma StepKeepsSize(c: Config, s: State, step: Step)
    requires c.Valid() && Enabled(c, s, step)
    ensures var t := Apply(c, s, step);
            |t.workCh| + Total(t.workers, IsBusy) + |t.resultCh| + |t.collected| - t.fed
            == |s.workCh| + Total(s.workers, IsBusy) + |s.resultCh| + |s.collected| - s.fed
  {
    if IsWorkerStep(step) {
      TotalUpdate(s.workers, step.w, Apply(c, s, step).workers[step.w], IsBusy);
    }
  }

  lemma StepConserves(c: Config, s: State, step: Step)
    requires c.Valid() && Conserved(s) && Enabled(c, s, step)
    ensures Conserved(Apply(c, s, step))
  {
    var t := Apply(c, s, step);
    forall item: nat
      ensures Places(t, item) == if item < t.fed then 1 else 0
    {
      if IsWorkerStep(step) {
        WorkerStepKeepsPlaces(c, s, step, item);
      } else {
        OtherStepKeepsPlaces(c, s, step, item);
      }
    }
    forall item: nat
      ensures multiset(t.queried)[item] == Asked(t, item)
    {
      if IsWorkerStep(step) {
        WorkerStepKeepsAsked(c, s, step, item);
      } else {
        OtherStepKeepsAsked(c, s, step, item);
      }
    }
    StepKeepsSize(c, s, step);
  }

  lemma {:induction false} RunKeepsInv(c: Config, states: seq<State>, steps: seq<Step>, i: nat)
    requires c.Valid() && IsRun(c, states, steps) && i < |states|
    ensures Inv(c, states[i])
  {
    if i == 0 {
      InitInv(c);
    } else {
      RunKeepsInv(c, states, steps, i - 1);
      assert Next(c)(states[i - 1], steps[i - 1], states[i]);
      StepKeepsControl(c, states[i - 1], steps[i - 1]);
      StepConserves(c, states[i - 1], steps[i - 1]);
    }
  }

  // ---- No goroutine waits for room ----

  /** Whoever has something to send finds room for it at once, also after the collector has
      returned early. */
  lemma SendsNeverBlock(c: Config, states: seq<State>, steps: seq<Step>, i: nat)
    requires c.Valid() && IsRun(c, states, steps) && i < |states|
    ensures states[i].fed < c.Size() ==> Enabled(c, states[i], Feed)
    ensures forall w :: 0 <= w < |states[i].workers| && states[i].workers[w].Holding? ==> Enabled(c, states[i], Put(w))
  {
    RunKeepsInv(c, states, steps, i);
    var s := states[i];
    forall w | 0 <= w < |s.workers| && s.workers[w].Holding? ensures Enabled(c, s, Put(w)) {
      TotalAtLeast(s.workers, w, IsBusy);
    }
  }

  lemma {:induction false} BusyWithinPool(ws: seq<Worker>)
    ensures Total(ws, IsBusy) <= |ws|
  {
    if ws != [] {
      BusyWithinPool(ws[1..]);
    }
  }

  /** In no state of any run are more than ten lookups under way, or more than there are. */
  lemma AtMostTenAtOnce(c: Config, states: seq<State>, steps: seq<Step>, i: nat)
    requires c.Valid() && IsRun(c, states, steps) && i < |states|
    ensures Total(states[i].workers, IsBusy) <= 10 && Total(states[i].workers, IsBusy) <= |c.keys|
  {
    RunKeepsInv(c, states, steps, i);
    BusyWithinPool(states[i].workers);
  }

  // ---- Progress and termination ----

  lemma SomeStep(c: Config, s: State) returns (step: Step)
    requires c.Valid() && Inv(c, s) && !Terminal(s)
    ensures Enabled(c, s, step)
  {
    if s.fed < c.Size() {
      step := Feed;
    } else if !s.workClosed {
      step := CloseWork;
    } else if w :| 0 <= w < |s.workers| && !s.workers[w].Exited? {
      match s.workers[w]
      case Idle => step := if s.workCh != [] then Take(w) else Exit(w);
      case Asking(_) => step := Ask(w);
      case Holding(_) =>
        TotalAtLeast(s.workers, w, IsBusy);
        step := Put(w);
    } else if !s.resultClosed {
      step := CloseResults;
    } else {
      step := if s.resultCh != [] then Collect else Finish;
    }
  }

  function Measure(c: Config, s: State): int {
    5 * (c.Size() - s.fed) + 4 * |s.workCh| + Total(s.workers, WorkerWeight) + |s.resultCh|
    + (if s.workClosed then 0 else 1) + (if s.resultClosed then 0 else 1) + (if s.verdict.Pending? then 1 else 0)
  }

  lemma StepDecreases(c: Config, s: State, step: Step)
    requires c.Valid() && Enabled(c, s, step)
    ensures Measure(c, Apply(c, s, step)) < Measure(c, s)
  {
    if IsWorkerStep(step) {
      TotalUpdate(s.workers, step.w, Apply(c, s, step).workers[step.w], WorkerWeight);
    }
  }

  lemma InitMeasure(c: Config)
    requires c.Valid()
    ensures Measure(c, Init(c)) == 5 * c.Size() + c.Workers() + 3
  {
    TotalSame(Init(c).workers, WorkerWeight, 1);
  }

  lemma {:induction false} MeasureAlongRun(c: Config, states: seq<State>, steps: seq<Step>, i: nat)
    requires c.Valid() && IsRun(c, states, steps) && i < |states|
    ensures Measure(c, states[i]) + i <= Measure(c, Init(c))
  {
    if i > 0 {
      MeasureAlongRun(c, states, steps, i - 1);
      assert Next(c)(states[i - 1], steps[i - 1], states[i]);
      StepDecreases(c, states[i - 1], steps[i - 1]);
    }
  }

  /** No interleaving takes more than five steps per lookup, one per worker, and three. */
  lemma RunsAreBounded(c: Config, states: seq<State>, steps: seq<Step>)
    requires c.Valid() && IsRun(c, states, steps)
    ensures |steps| <= 5 * c.Size() + c.Workers() + 3
  {
    MeasureAlongRun(c, states, steps, |steps|);
    RunKeepsInv(c, states, steps, |steps|);
    InitMeasure(c);
  }

  // ---- Outcome ----

  lemma {:induction false} CacheHas(c: Config, collected: seq<nat>, item: nat)
    requires c.Valid() && item in collected && item < c.Size() && c.answers[item].Label?
    ensures c.keys[item] in CacheOf(c, collected)
  {
    var n := |collected| - 1;
    if collected[n] != item {
      CacheHas(c, collected[..n], item);
    }
  }

  /** Each value in the cache was answered for some lookup with that key. */
  lemma {:induction false} CacheFrom(c: Config, collected: seq<nat>, key: string) returns (item: nat)
    requires c.Valid() && key in CacheOf(c, collected)
    ensures item < c.Size() && c.keys[item] == key && c.answers[item] == Label(CacheOf(c, collected)[key])
  {
    var n := |collected| - 1;
    item := collected[n];
    if !(item < c.Size() && c.answers[item].Label? && c.keys[item] == key) {
      item := CacheFrom(c, collected[..n], key);
    }
  }

  /** However the pool is scheduled, a finished fetch fails iff some lookup fails. If it
      succeeds it asked the API for each lookup exactly once, has an entry for each key, and
      each entry is what was answered for a lookup with that key. */
  lemma FetchOutcome(c: Config, s: State)
    requires c.Valid() && Inv(c, s) && Terminal(s)
    ensures s.verdict.Failed? <==> Error in c.answers
    ensures forall item: nat :: multiset(s.queried)[item] == if item < c.Size() then 1 else 0
    ensures s.verdict.Success? ==>
              && (forall i :: 0 <= i < c.Size() ==> c.keys[i] in s.cache)
              && (forall key :: key in s.cache ==>
                    exists i :: 0 <= i < c.Size() && c.keys[i] == key && c.answers[i] == Label(s.cache[key]))
  {
    forall item: nat
      ensures multiset(s.queried)[item] == if item < c.Size() then 1 else 0
      ensures s.verdict.Success? && item < c.Size() ==> item in s.collected
    {
      TotalSame(s.workers, BusyWithItem(item), 0);
      TotalSame(s.workers, AskedItem(item), 0);
      assert Places(s, item) == if item < s.fed then 1 else 0;
    }
    if s.verdict.Success? {
      forall i | 0 <= i < c.Size() ensures c.keys[i] in s.cache && c.answers[i] != Error {
        assert i in s.collected;
        CacheHas(c, s.collected, i);
      }
      forall key | key in s.cache
        ensures exists i :: 0 <= i < c.Size() && c.keys[i] == key && c.answers[i] == Label(s.cache[key])
      {
        var i := CacheFrom(c, s.collected, key);
      }
    } else {
      var i :| i in s.collected && !(i < c.Size() && c.answers[i].Label?);
      assert Places(s, i) == if i < s.fed then 1 else 0;
    }
  }

  /** In every state of every run no lookup has been sent to the API twice. */
  lemma AskedAtMostOnce(c: Config, states: seq<State>, steps: seq<Step>, i: nat, item: nat)
    requires c.Valid() && IsRun(c, states, steps) && i < |states|
    ensures multiset(states[i].queried)[item] <= 1
  {
    RunKeepsInv(c, states, steps, i);
    AskedWithinPlaces(states[i].workers, item);
    assert Places(states[i], item) <= 1;
    assert multiset(states[i].queried)[item] == Asked(states[i], item);
  }

  lemma {:induction false} AskedWithinPlaces(ws: seq<Worker>, item: nat)
    ensures Total(ws, AskedItem(item)) <= Total(ws, BusyWithItem(item))
  {
    if ws != [] {
      AskedWithinPlaces(ws[1..], item);
    }
  }

  /** A finished run of the pool, and what it returns. */
  ghost predicate IsFetch(c: Config, states: seq<State>, steps: seq<Step>, cache: map<string, bool>, failed: bool)
    requires c.Valid()
  {
    && IsRun(c, states, steps) && Terminal(states[|steps|])
    && cache == states[|steps|].cache && failed == states[|steps|].verdict.Failed?
  }

  /** Any schedule, run to its end: take steps in whatever order until nobody can. The run is
      returned for inspection. */
  method FetchInParallel(c: Config)
    returns (cache: map<string, bool>, failed: bool, ghost states: seq<State>, ghost steps: seq<Step>)
    requires c.Valid()
    ensures IsFetch(c, states, steps, cache, failed)
    ensures forall i: nat :: multiset(states[|steps|].queried)[i] == if i < c.Size() then 1 else 0
    ensures failed <==> Error in c.answers
    ensures !failed ==>
              && (forall i :: 0 <= i < c.Size() ==> c.keys[i] in cache)
              && (forall key :: key in cache ==>
                    exists i :: 0 <= i < c.Size() && c.keys[i] == key && c.answers[i] == Label(cache[key]))
  {
    var s := Init(c);
    InitInv(c);
    states, steps := [s], [];
    while !Terminal(s)
      invariant Inv(c, s) && IsRun(c, states, steps) && states[|steps|] == s
      decreases Measure(c, s)
    {
      ghost var some := SomeStep(c, s);
      var step :| Enabled(c, s, step);
      StepKeepsControl(c, s, step);
      StepConserves(c, s, step);
      StepDecreases(c, s, step);
      LinksGrow(Init(c), Next(c), states, steps, step, Apply(c, s, step));
      s := Apply(c, s, step);
      states, steps := states + [s], steps + [step];
    }
    FetchOutcome(c, s);
    cache, failed := s.cache, s.verdict.Failed?;
  }
}
