/** The backup pipeline of one workload type: a producer, a pool of workers and a writer,
    joined by two bounded channels and one shared cancellation, as a transition system.
    Workloads are named by their position in the listing. */
module Pipeline {
  import opened Runs

  /** `resolves[i]` tells whether the dependencies of workload `i` can be resolved. Both
      channels hold as many entries as there are workers. */
  datatype Config = Config(workers: nat, items: nat, listFails: bool, resolves: seq<bool>) {
    predicate Valid() { workers >= 1 && |resolves| == items }
  }

  datatype Producer = Listing | Sending(next: nat) | Done(err: bool)

  datatype Worker = Idle | Resolving(item: nat) | Delivering(item: nat) | Exited(err: bool)

  datatype Writer = Receiving | Stopped(err: bool)

  datatype State = State(
    producer: Producer,
    sent: nat,
    workCh: seq<nat>,
    workClosed: bool,
    workers: seq<Worker>,
    resolvedCh: seq<nat>,
    resolvedClosed: bool,
    writer: Writer,
    written: seq<nat>,    // taken by the writer, in order
    dropped: seq<nat>,    // given up because resolving failed
    abandoned: seq<nat>,  // held by a worker that stopped on cancellation
    cancelled: bool)

  function Init(c: Config): State {
    State(Listing, 0, [], false, seq(c.workers, i => Idle), [], false, Receiving, [], [], [], false)
  }

  datatype Step =
    | Cancel
    | List | ListFail | Send | FinishSending | StopSending | CloseWork | FailGroup
    | Receive(w: nat) | SeeClosed(w: nat) | StopWorker(w: nat)
    | ResolveOk(w: nat) | ResolveFail(w: nat) | Deliver(w: nat)
    | CloseResolved
    | Take | FinishWriting | StopWriting

  predicate AllExited(ws: seq<Worker>) {
    forall w :: 0 <= w < |ws| ==> ws[w].Exited?
  }

  /** When a step can be taken. A select takes any of its ready branches, and a send is ready
      when there is room: Go does not look whether the channel is closed before it panics. */
  predicate Enabled(c: Config, s: State, step: Step) {
    match step
    case Cancel => !s.cancelled
    case List => s.producer.Listing? && !c.listFails
    case ListFail => s.producer.Listing? && (c.listFails || s.cancelled)
    case Send => s.producer.Sending? && s.producer.next < c.items && |s.workCh| < c.workers
    case FinishSending => s.producer.Sending? && s.producer.next >= c.items
    case StopSending => s.producer.Sending? && s.producer.next < c.items && s.cancelled
    case CloseWork => s.producer.Done? && !s.workClosed
    case FailGroup => s.producer == Done(true) && s.workClosed && !s.cancelled
    case Receive(w) => w < |s.workers| && s.workers[w].Idle? && s.workCh != []
    case SeeClosed(w) => w < |s.workers| && s.workers[w].Idle? && s.workCh == [] && s.workClosed
    case StopWorker(w) => w < |s.workers| && s.cancelled && (s.workers[w].Idle? || s.workers[w].Delivering?)
    case ResolveOk(w) =>
      w < |s.workers| && s.workers[w].Resolving? && s.workers[w].item < |c.resolves| && c.resolves[s.workers[w].item]
    case ResolveFail(w) =>
      w < |s.workers| && s.workers[w].Resolving?
      && (s.cancelled || (s.workers[w].item < |c.resolves| && !c.resolves[s.workers[w].item]))
    case Deliver(w) => w < |s.workers| && s.workers[w].Delivering? && |s.resolvedCh| < c.workers
    case CloseResolved => AllExited(s.workers) && !s.resolvedClosed
    case Take => s.writer.Receiving? && s.resolvedCh != []
    case FinishWriting => s.writer.Receiving? && s.resolvedCh == [] && s.resolvedClosed
    case StopWriting => s.writer.Receiving? && s.cancelled
  }

  function Apply(c: Config, s: State, step: Step): State
    requires Enabled(c, s, step)
  {
    match step
    case Cancel => s.(cancelled := true)
    case List => s.(producer := Sending(0))
    case ListFail => s.(producer := Done(true))
    case Send =>
      s.(workCh := s.workCh + [s.producer.next], sent := s.sent + 1, producer := Sending(s.producer.next + 1))
    case FinishSending => s.(producer := Done(false))
    case StopSending => s.(producer := Done(true))
    case CloseWork => s.(workClosed := true)
    case FailGroup => s.(cancelled := true)
    case Receive(w) => s.(workers := s.workers[w := Resolving(s.workCh[0])], workCh := s.workCh[1..])
    case SeeClosed(w) => s.(workers := s.workers[w := Exited(false)])
    case StopWorker(w) =>
      s.(workers := s.workers[w := Exited(true)],
         abandoned := if s.workers[w].Delivering? then s.abandoned + [s.workers[w].item] else s.abandoned)
    case ResolveOk(w) => s.(workers := s.workers[w := Delivering(s.workers[w].item)])
    case ResolveFail(w) => s.(workers := s.workers[w := Idle], dropped := s.dropped + [s.workers[w].item])
    case Deliver(w) => s.(workers := s.workers[w := Idle], resolvedCh := s.resolvedCh + [s.workers[w].item])
    case CloseResolved => s.(resolvedClosed := true)
    case Take => s.(written := s.written + [s.resolvedCh[0]], resolvedCh := s.resolvedCh[1..])
    case FinishWriting => s.(writer := Stopped(false))
    case StopWriting => s.(writer := Stopped(true))
  }

  /** Every goroutine has returned, and an error of one of them has cancelled the group. */
  predicate Terminal(s: State) {
    && s.producer.Done? && s.workClosed && (s.producer.err ==> s.cancelled)
    && AllExited(s.workers) && s.resolvedClosed
    && s.writer.Stopped?
  }

  function Next(c: Config): (State, Step, State) -> bool {
    (s: State, step: Step, t: State) => Enabled(c, s, step) && t == Apply(c, s, step)
  }

  /** Any interleaving from the start: the states it goes through and the steps it takes. */
  ghost predicate IsRun(c: Config, states: seq<State>, steps: seq<Step>) {
    Links(Init(c), Next(c), states, steps)
  }
}
