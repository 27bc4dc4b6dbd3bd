/** The watch loop: poll on every tick, emit what changed, back off on errors. */
module Watch {
  import opened Sequences

  const SECOND := 1_000_000_000  // durations are in nanoseconds
  const MAX_POLL_INTERVAL := 5 * 60 * SECOND
  const MAX_WATCH_ERRORS := 5
  const INITIAL_WATCH_BACKOFF := SECOND
  const MAX_WATCH_BACKOFF := 30 * SECOND
  const WATCH_BACKOFF_FACTOR := 2

  datatype Sample = Sample(data: string, snapshot: string)

  /** What a poll answers, and what follows from it: whether emitting the sample would
      succeed, whether a backoff sleep would run to its end before the context is done. */
  datatype Poll =
    | Good(sample: Sample, emits: bool)
    | Bad(unrecoverable: bool, waits: bool)

  datatype Event = ContextDone | Tick(poll: Poll)

  datatype Outcome =
    | Running  // all the given events are used up and the loop goes on
    | InvalidInterval | FirstPollFailed | EmitFailed | Unrecoverable | MaxErrors
    | Stopped  // returns without an error

  function Min(a: nat, b: nat): nat { if a <= b then a else b }

  function Pow2(n: nat): nat { if n == 0 then 1 else 2 * Pow2(n - 1) }

  // ---- What a history of events means, without looking at the loop's state ----

  function Successes(first: Sample, events: seq<Event>): seq<Sample> {
    if events == [] then [first]
    else
      var e := events[|events| - 1];
      Successes(first, events[..|events| - 1]) + if e.Tick? && e.poll.Good? then [e.poll.sample] else []
  }

  function Last<T>(s: seq<T>): T
    requires s != []
  {
    s[|s| - 1]
  }

  lemma {:induction false} SuccessesStart(first: Sample, events: seq<Event>)
    ensures Successes(first, events) != []
  {
    if events != [] {
      SuccessesStart(first, events[..|events| - 1]);
    }
  }

  /** Keep the first sample of every stretch of equal snapshots. */
  function Collapse(s: seq<Sample>): seq<Sample> {
    if |s| <= 1 then s
    else Collapse(s[..|s| - 1]) + if s[|s| - 1].snapshot != s[|s| - 2].snapshot then [s[|s| - 1]] else []
  }

  /** The number of failed polls at the end of a history. */
  function TrailingErrors(events: seq<Event>): (n: nat)
    ensures n <= |events|
  {
    if events == [] then 0
    else
      var e := events[|events| - 1];
      if e.Tick? && e.poll.Bad? then TrailingErrors(events[..|events| - 1]) + 1 else 0
  }

  /** What the last event of a history does to a loop that was still running before it. */
  function Verdict(first: Sample, events: seq<Event>): Outcome {
    if events == [] then Running
    else
      match events[|events| - 1]
      case ContextDone => Stopped
      case Tick(Bad(true, _)) => Unrecoverable
      case Tick(Bad(false, waits)) =>
        if TrailingErrors(events) >= MAX_WATCH_ERRORS then MaxErrors else if waits then Running else Stopped
      case Tick(Good(sample, emits)) =>
        var earlier := Successes(first, events[..|events| - 1]);
        if earlier != [] && sample.snapshot != Last(earlier).snapshot && !emits then EmitFailed else Running
  }

  /** The backoff sleeps of a history. */
  function Sleeps(events: seq<Event>): seq<nat> {
    if events == [] then []
    else
      var e := events[|events| - 1];
      Sleeps(events[..|events| - 1])
      + if e.Tick? && e.poll.Bad? && !e.poll.unrecoverable && TrailingErrors(events) < MAX_WATCH_ERRORS
        then [Pow2(TrailingErrors(events) - 1) * SECOND] else []
  }

  // ---- The loop ----

  class WatchState {
    var consecutiveErrors: nat
    var backoff: nat
    ghost var sleeps: seq<nat>

    constructor ()
      ensures Valid() && consecutiveErrors == 0 && sleeps == []
    {
      consecutiveErrors, backoff, sleeps := 0, INITIAL_WATCH_BACKOFF, [];
    }

    /** Holds whenever the loop waits for a tick. */
    ghost predicate Valid()
      reads this
    {
      consecutiveErrors < MAX_WATCH_ERRORS && backoff == Pow2(consecutiveErrors) * SECOND
    }

    /** The cap of the backoff never takes effect: a retry always doubles it. */
    method HandleError(unrecoverable: bool, waits: bool) returns (done: bool, outcome: Outcome)
      requires Valid()
      modifies this
      ensures !done <==> outcome == Running
      ensures outcome == if unrecoverable then Unrecoverable
                         else if old(consecutiveErrors) == MAX_WATCH_ERRORS - 1 then MaxErrors
                         else if waits then Running else Stopped
      ensures !done ==> Valid() && consecutiveErrors == old(consecutiveErrors) + 1 && backoff == 2 * old(backoff)
      ensures sleeps == old(sleeps) + if unrecoverable || outcome == MaxErrors then [] else [old(backoff)]
    {
      if unrecoverable {
        return true, Unrecoverable;
      }
      consecutiveErrors := consecutiveErrors + 1;
      if consecutiveErrors >= MAX_WATCH_ERRORS {
        return true, MaxErrors;
      }
      BackoffStaysSmall(consecutiveErrors);
      sleeps := sleeps + [backoff];
      if !waits {
        return true, Stopped;
      }
      backoff := Min(backoff * WATCH_BACKOFF_FACTOR, MAX_WATCH_BACKOFF);
      return false, Running;
    }

    method Reset()
      modifies this
      ensures Valid() && consecutiveErrors == 0 && sleeps == old(sleeps)
    {
      consecutiveErrors, backoff := 0, INITIAL_WATCH_BACKOFF;
    }
  }

  lemma BackoffStaysSmall(n: nat)
    requires n < MAX_WATCH_ERRORS
    ensures Pow2(n) <= 16 && 16 * SECOND < MAX_WATCH_BACKOFF
  {
    assert Pow2(0) == 1 && Pow2(1) == 2 && Pow2(2) == 4;
    assert Pow2(3) == 8 && Pow2(4) == 16;
  }

  /** How each reading of a history changes with one more event. */
  lemma HistoryGrows(first: Sample, h: seq<Event>, e: Event)
    ensures TrailingErrors(h + [e]) == if e.Tick? && e.poll.Bad? then TrailingErrors(h) + 1 else 0
    ensures Sleeps(h + [e]) == Sleeps(h)
              + if e.Tick? && e.poll.Bad? && !e.poll.unrecoverable && TrailingErrors(h) + 1 < MAX_WATCH_ERRORS
                then [Pow2(TrailingErrors(h)) * SECOND] else []
    ensures Successes(first, h) != []
    ensures Successes(first, h + [e]) ==
            if e.Tick? && e.poll.Good? then Successes(first, h) + [e.poll.sample] else Successes(first, h)
    ensures e.Tick? && e.poll.Good? ==>
              Collapse(Successes(first, h + [e])) == Collapse(Successes(first, h))
                + if e.poll.sample.snapshot != Last(Successes(first, h)).snapshot then [e.poll.sample] else []
    ensures Verdict(first, h + [e]) ==
            match e
            case ContextDone => Stopped
            case Tick(Bad(unrecoverable, waits)) =>
              if unrecoverable then Unrecoverable
              else if TrailingErrors(h) + 1 >= MAX_WATCH_ERRORS then MaxErrors
              else if waits then Running else Stopped
            case Tick(Good(sample, emits)) =>
              if sample.snapshot != Last(Successes(first, h)).snapshot && !emits then EmitFailed else Running
  {
    assert (h + [e])[..|h|] == h;
    SuccessesStart(first, h);
    if e.Tick? && e.poll.Good? {
      var good := Successes(first, h);
      assert (good + [e.poll.sample])[..|good|] == good;
    }
  }

  /** Run over the first poll and the events that follow. `attempted` are the samples handed
      to the emitter, and `used` is how many events the run lasted. */
  method RunWatch(pollInterval: int, first: Poll, events: seq<Event>)
    returns (outcome: Outcome, attempted: seq<Sample>, used: nat, ghost sleeps: seq<nat>)
    ensures used <= |events|
    ensures var intervalOk := SECOND <= pollInterval <= MAX_POLL_INTERVAL;
            && (!intervalOk ==> outcome == InvalidInterval)
            && (intervalOk && first.Bad? ==> outcome == FirstPollFailed)
            && (!intervalOk || first.Bad? ==> attempted == [] && used == 0)
            && (intervalOk && first.Good? && !first.emits ==>
                outcome == EmitFailed && attempted == [first.sample] && used == 0)
            && (intervalOk && first.Good? && first.emits ==>
                  RunsTo(first.sample, events, used, outcome, attempted)
                  && sleeps == Sleeps(events[..used]))
  {
    used, sleeps, attempted := 0, [], [];
    if pollInterval < SECOND || pollInterval > MAX_POLL_INTERVAL {
      return InvalidInterval, attempted, used, sleeps;
    }
    if first.Bad? {
      return FirstPollFailed, attempted, used, sleeps;
    }
    attempted := [first.sample];
    if !first.emits {
      return EmitFailed, attempted, used, sleeps;
    }
    outcome, attempted, used, sleeps := Loop(first.sample, events);
  }

  /** No beginning of this history has stopped the loop, nor has all of it. */
  ghost predicate KeepsRunning(first: Sample, h: seq<Event>) {
    Verdict(first, h) == Running && (h != [] ==> KeepsRunning(first, h[..|h| - 1]))
  }

  /** A loop that was fed `events` has used the first `used` of them: the shortest history
      with a verdict, or all of them. */
  ghost predicate RunsTo(first: Sample, events: seq<Event>, used: nat, outcome: Outcome, attempted: seq<Sample>) {
    && used <= |events|
    && outcome == Verdict(first, events[..used])
    && (used > 0 ==> KeepsRunning(first, events[..used - 1]))
    && (outcome == Running ==> used == |events|)
    && attempted == Collapse(Successes(first, events[..used]))
  }

  /** The loop's variables after a history. */
  ghost predicate Emitted(first: Sample, h: seq<Event>, prevSnapshot: string, attempted: seq<Sample>) {
    && Successes(first, h) != []
    && prevSnapshot == Last(Successes(first, h)).snapshot
    && attempted == Collapse(Successes(first, h))
  }

  /** One turn of the loop. */
  method Turn(ws: WatchState, first: Sample, ghost h: seq<Event>, event: Event, prev: string, emitted: seq<Sample>)
    returns (outcome: Outcome, prevSnapshot: string, attempted: seq<Sample>)
    requires ws.Valid() && ws.consecutiveErrors == TrailingErrors(h) && Emitted(first, h, prev, emitted)
    modifies ws
    ensures outcome == Verdict(first, h + [event])
    ensures outcome == Running ==> ws.Valid() && ws.consecutiveErrors == TrailingErrors(h + [event])
    ensures Emitted(first, h + [event], prevSnapshot, attempted)
    ensures old(ws.sleeps) == Sleeps(h) ==> ws.sleeps == Sleeps(h + [event])
  {
    HistoryGrows(first, h, event);
    prevSnapshot, attempted, outcome := prev, emitted, Running;
    match event {
      case ContextDone =>
        outcome := Stopped;
      case Tick(Bad(unrecoverable, waits)) =>
        var done;
        done, outcome := ws.HandleError(unrecoverable, waits);
      case Tick(Good(sample, emits)) =>
        ws.Reset();
        if prevSnapshot != sample.snapshot {
          prevSnapshot := sample.snapshot;
          attempted := attempted + [sample];
          if !emits {
            outcome := EmitFailed;
          }
        }
    }
  }

  method Loop(first: Sample, events: seq<Event>)
    returns (outcome: Outcome, attempted: seq<Sample>, used: nat, ghost sleeps: seq<nat>)
    ensures RunsTo(first, events, used, outcome, attempted)
    ensures sleeps == Sleeps(events[..used])
  {
    attempted, used, outcome := [first], 0, Running;
    var prevSnapshot := first.snapshot;
    var ws := new WatchState();
    ghost var h: seq<Event> := [];
    while used < |events|
      invariant used <= |events| && h == events[..used]
      invariant ws.Valid() && fresh(ws) && ws.consecutiveErrors == TrailingErrors(h) && ws.sleeps == Sleeps(h)
      invariant KeepsRunning(first, h) && Emitted(first, h, prevSnapshot, attempted)
    {
      ghost var before := h;
      h := events[..used + 1];
      assert h == before + [events[used]] && h[..|h| - 1] == before;
      outcome, prevSnapshot, attempted := Turn(ws, first, before, events[used], prevSnapshot, attempted);
      used := used + 1;
      if outcome != Running {
        return outcome, attempted, used, ws.sleeps;
      }
    }
    assert used > 0 ==> h[..|h| - 1] == events[..used - 1];
    return Running, attempted, used, ws.sleeps;
  }

  // ---- What a reader of the stream can rely on ----

  predicate Changes(s: seq<Sample>, i: nat) {
    i < |s| && (i == 0 || s[i].snapshot != s[i - 1].snapshot)
  }

  /** The positions in `idx` are exactly those where the snapshot changes, and `r` shows them. */
  ghost predicate ShowsChanges(r: seq<Sample>, idx: seq<nat>, s: seq<Sample>) {
    && |idx| == |r|
    && (forall j, k :: 0 <= j < k < |idx| ==> idx[j] < idx[k])
    && (forall i: nat :: i in idx <==> Changes(s, i))
    && (forall j :: 0 <= j < |idx| ==> idx[j] < |s| && r[j] == s[idx[j]])
  }

  lemma ShowsOneMore(r: seq<Sample>, idx: seq<nat>, s: seq<Sample>, x: Sample) returns (idx': seq<nat>)
    requires s != [] && ShowsChanges(r, idx, s)
    ensures ShowsChanges(r + if x.snapshot != Last(s).snapshot then [x] else [], idx', s + [x])
  {
    var t := s + [x];
    forall i: nat ensures Changes(t, i) <==> Changes(s, i) || (i == |s| && x.snapshot != Last(s).snapshot) {
    }
    forall j | 0 <= j < |idx| ensures idx[j] < |s| && t[idx[j]] == r[j] {
    }
    if x.snapshot != Last(s).snapshot {
      idx' := idx + [|s|];
      forall i: nat ensures i in idx' <==> i in idx || i == |s| {
        assert idx'[|idx|] == |s|;
      }
    } else {
      idx' := idx;
    }
  }

  lemma ShowsShort(s: seq<Sample>) returns (idx: seq<nat>)
    requires |s| <= 1
    ensures ShowsChanges(s, idx, s)
  {
    idx := if s == [] then [] else [0];
    assert s != [] ==> idx[0] == 0;
  }

  /** What is emitted is exactly the samples at which the snapshot changed, in order. */
  lemma {:induction false} CollapseIsTheChanges(s: seq<Sample>) returns (idx: seq<nat>)
    ensures ShowsChanges(Collapse(s), idx, s)
  {
    if |s| <= 1 {
      idx := ShowsShort(s);
    } else {
      var front, x := s[..|s| - 1], Last(s);
      var r := Collapse(front);
      assert Collapse(s) == r + if x.snapshot != Last(front).snapshot then [x] else [];
      assert s == front + [x];
      var idx0 := CollapseIsTheChanges(front);
      idx := ShowsOneMore(r, idx0, front, x);
    }
  }

  /** The last sample emitted always shows the state of the last successful poll, and no two
      neighbours in the stream are equal. */
  lemma {:induction false} StreamIsCurrent(s: seq<Sample>)
    requires s != []
    ensures Collapse(s) != [] && Last(Collapse(s)).snapshot == Last(s).snapshot
    ensures forall j :: 0 <= j < |Collapse(s)| - 1 ==> Collapse(s)[j].snapshot != Collapse(s)[j + 1].snapshot
  {
    if |s| > 1 {
      var front, x := s[..|s| - 1], Last(s);
      StreamIsCurrent(front);
      assert s == front + [x];
      CollapseAppend(front, x);
    }
  }

  lemma CollapseAppend(front: seq<Sample>, x: Sample)
    requires front != []
    ensures Collapse(front + [x])
         == if x.snapshot != Last(front).snapshot then Collapse(front) + [x] else Collapse(front)
  {
    assert (front + [x])[..|front|] == front;
  }

  function WithoutFailures(events: seq<Event>): seq<Event> {
    if events == [] then []
    else
      var e := events[|events| - 1];
      WithoutFailures(events[..|events| - 1]) + if e.Tick? && e.poll.Bad? then [] else [e]
  }

  /** However failed polls are interleaved, the stream is what it would be without them. */
  lemma {:induction false} FailuresAreInvisible(first: Sample, events: seq<Event>)
    ensures Successes(first, events) == Successes(first, WithoutFailures(events))
  {
    if events != [] {
      var front, e := events[..|events| - 1], events[|events| - 1];
      FailuresAreInvisible(first, front);
      var rest := WithoutFailures(front);
      SuccessesAppend(first, front, e);
      SuccessesAppend(first, rest, e);
      assert events == front + [e];
      assert WithoutFailures(events) == if e.Tick? && e.poll.Bad? then rest else rest + [e];
    }
  }

  lemma SuccessesAppend(first: Sample, h: seq<Event>, e: Event)
    ensures Successes(first, h + [e])
         == if e.Tick? && e.poll.Good? then Successes(first, h) + [e.poll.sample] else Successes(first, h)
  {
    assert (h + [e])[..|h|] == h;
  }

  predicate IsGoodPoll(e: Event) { e.Tick? && e.poll.Good? }

  function SampleOf(e: Event): Sample { if IsGoodPoll(e) then e.poll.sample else Sample("", "") }

  function GoodSamples(events: seq<Event>): seq<Sample> { MapSeq(Filter(events, IsGoodPoll), SampleOf) }

  lemma GoodSamplesAppend(front: seq<Event>, e: Event)
    ensures GoodSamples(front + [e])
         == if IsGoodPoll(e) then GoodSamples(front) + [e.poll.sample] else GoodSamples(front)
  {
    FilterAppend(front, e, IsGoodPoll);
    if IsGoodPoll(e) {
      MapSeqAppend(Filter(front, IsGoodPoll), e, SampleOf);
    } else {
      assert Filter(front, IsGoodPoll) + [] == Filter(front, IsGoodPoll);
    }
  }

  /** The successes are the first sample and then those of exactly the good polls, in order. */
  lemma {:induction false} SuccessesAreTheGoodPolls(first: Sample, events: seq<Event>)
    ensures Successes(first, events) == [first] + MapSeq(Filter(events, IsGoodPoll), SampleOf)
  {
    if events != [] {
      var front, e := events[..|events| - 1], events[|events| - 1];
      SuccessesAreTheGoodPolls(first, front);
      OneMoreSuccess(first, front, e, GoodSamples(front));
      GoodSamplesAppend(front, e);
      assert events == front + [e];
    }
  }

  lemma OneMoreSuccess(first: Sample, front: seq<Event>, e: Event, good: seq<Sample>)
    requires Successes(first, front) == [first] + good
    ensures Successes(first, front + [e]) == [first] + if IsGoodPoll(e) then good + [e.poll.sample] else good
  {
    SuccessesAppend(first, front, e);
  }

  predicate IsBad(events: seq<Event>, i: nat) { i < |events| && events[i].Tick? && events[i].poll.Bad? }

  /** The streak is made of failed polls, and what comes before it is none. */
  lemma {:induction false} TrailingErrorsAreTheLast(events: seq<Event>)
    ensures var n := TrailingErrors(events);
            && (forall i :: |events| - n <= i < |events| ==> IsBad(events, i))
            && (n < |events| ==> !IsBad(events, |events| - n - 1))
  {
    if events != [] && IsBad(events, |events| - 1) {
      var front := events[..|events| - 1];
      TrailingErrorsAreTheLast(front);
      assert forall i: nat :: i < |front| ==> (IsBad(events, i) <==> IsBad(front, i));
    }
  }

  /** Why a loop that has used up `used` events ended: the last of them was the end of the context, a
      failure that cannot be cured or is the fifth, a sleep cut short, or an emission that failed. */
  lemma EndsBecause(first: Sample, events: seq<Event>, used: nat, outcome: Outcome, attempted: seq<Sample>)
    requires RunsTo(first, events, used, outcome, attempted) && used > 0
    ensures var last, before := events[used - 1], events[..used - 1];
            && (outcome == Unrecoverable <==> last.Tick? && last.poll.Bad? && last.poll.unrecoverable)
            && (outcome == Stopped <==>
                  || last.ContextDone?
                  || (last.Tick? && last.poll.Bad? && !last.poll.unrecoverable && !last.poll.waits
                      && TrailingErrors(before) < 4))
            && (outcome == EmitFailed <==>
                  last.Tick? && last.poll.Good? && !last.poll.emits
                  && Successes(first, before) != []
                  && last.poll.sample.snapshot != Last(Successes(first, before)).snapshot)
  {
    var h := events[..used - 1];
    assert events[..used] == h + [events[used - 1]];
    HistoryGrows(first, h, events[used - 1]);
  }

  /** Nothing that ends the loop happened before its last event. */
  lemma {:induction false} NothingEndedBefore(first: Sample, h: seq<Event>, i: nat)
    requires KeepsRunning(first, h) && i < |h|
    ensures h[i].Tick?
    ensures h[i].poll.Bad? ==> !h[i].poll.unrecoverable && h[i].poll.waits
    decreases |h|
  {
    if i < |h| - 1 {
      NothingEndedBefore(first, h[..|h| - 1], i);
    }
  }

  // ---- Error streaks ----

  function Sum(s: seq<nat>): nat { if s == [] then 0 else Sum(s[..|s| - 1]) + s[|s| - 1] }

  /** The sleeps of a history that fall into the failure streak at its end. */
  function StreakSleeps(events: seq<Event>): seq<nat> {
    var start := |events| - TrailingErrors(events);
    if |Sleeps(events[..start])| <= |Sleeps(events)| then Sleeps(events)[|Sleeps(events[..start])|..] else []
  }

  /** What a failure adds to the sleeps of its streak. */
  lemma StreakGrows(events: seq<Event>)
    requires TrailingErrors(events) > 0
    ensures var front := events[..|events| - 1];
            StreakSleeps(events) == StreakSleeps(front)
              + if TrailingErrors(events) < MAX_WATCH_ERRORS && !events[|events| - 1].poll.unrecoverable
                then [Pow2(TrailingErrors(events) - 1) * SECOND] else []
  {
    var front, start := events[..|events| - 1], |events| - TrailingErrors(events);
    assert events[..start] == front[..|front| - TrailingErrors(front)];
    StreakIsTheEnd(front);
  }

  /** The streak's sleeps are the last ones of the history. */
  lemma {:induction false} StreakIsTheEnd(events: seq<Event>)
    ensures Sleeps(events) == Sleeps(events[..|events| - TrailingErrors(events)]) + StreakSleeps(events)
    decreases |events|
  {
    if TrailingErrors(events) == 0 {
      assert events[..|events|] == events;
    } else {
      var front := events[..|events| - 1];
      assert events[..|events| - TrailingErrors(events)] == front[..|front| - TrailingErrors(front)];
      StreakIsTheEnd(front);
    }
  }

  lemma SumGrows(s: seq<nat>, x: nat)
    ensures Sum(s + [x]) == Sum(s) + x
  {
    assert (s + [x])[..|s|] == s;
  }

  /** What a streak has slept in all, in seconds one less than a power of two. */
  lemma StreakSumGrows(events: seq<Event>)
    requires TrailingErrors(events) > 0
    requires Sum(StreakSleeps(events[..|events| - 1])) == (Pow2(TrailingErrors(events) - 1) - 1) * SECOND
    ensures Sum(StreakSleeps(events)) ==
            if TrailingErrors(events) < MAX_WATCH_ERRORS && !events[|events| - 1].poll.unrecoverable
            then (Pow2(TrailingErrors(events)) - 1) * SECOND
            else (Pow2(TrailingErrors(events) - 1) - 1) * SECOND
  {
    var before, n := StreakSleeps(events[..|events| - 1]), TrailingErrors(events);
    StreakGrows(events);
    if n < MAX_WATCH_ERRORS && !events[|events| - 1].poll.unrecoverable {
      SumGrows(before, Pow2(n - 1) * SECOND);
      TwicePow2(n);
    } else {
      assert StreakSleeps(events) == before;
    }
  }

  lemma TwicePow2(n: nat)
    requires n > 0
    ensures (Pow2(n - 1) - 1) * SECOND + Pow2(n - 1) * SECOND == (Pow2(n) - 1) * SECOND
  {
  }

  lemma NoStreakNoSleep(events: seq<Event>)
    requires TrailingErrors(events) == 0
    ensures Sum(StreakSleeps(events)) == 0
  {
    assert events[..|events|] == events;
  }

  /** While the loop is running a streak is shorter than five failures, and it has slept
      2^failures - 1 seconds: at most 15. */
  lemma {:induction false} StreakIsBounded(first: Sample, events: seq<Event>)
    requires KeepsRunning(first, events)
    ensures TrailingErrors(events) < MAX_WATCH_ERRORS
    ensures Sum(StreakSleeps(events)) == (Pow2(TrailingErrors(events)) - 1) * SECOND
    ensures Sum(StreakSleeps(events)) <= 15 * SECOND
    decreases |events|
  {
    if TrailingErrors(events) == 0 {
      NoStreakNoSleep(events);
    } else {
      StreakIsBounded(first, events[..|events| - 1]);
      StreakSumGrows(events);
    }
    BackoffStaysSmall(TrailingErrors(events));
  }

  /** However the loop ended, its last streak slept 15 seconds at most. */
  lemma StreakSleepsAtMost15(first: Sample, events: seq<Event>, used: nat, outcome: Outcome, attempted: seq<Sample>)
    requires RunsTo(first, events, used, outcome, attempted)
    ensures Sum(StreakSleeps(events[..used])) <= 15 * SECOND
  {
    var h := events[..used];
    if TrailingErrors(h) == 0 {
      NoStreakNoSleep(h);
    } else {
      assert h[..|h| - 1] == events[..used - 1];
      StreakIsBounded(first, h[..|h| - 1]);
      StreakSumGrows(h);
      BackoffStaysSmall(TrailingErrors(h) - 1);
      if TrailingErrors(h) < MAX_WATCH_ERRORS {
        BackoffStaysSmall(TrailingErrors(h));
      }
    }
  }

  /** The loop gives up exactly at the fifth failure in a row that a retry could have cured. */
  lemma GivesUpAtFifthFailure(first: Sample, events: seq<Event>, used: nat, outcome: Outcome, attempted: seq<Sample>)
    requires RunsTo(first, events, used, outcome, attempted)
    ensures outcome == MaxErrors <==>
            && used > 0 && events[used - 1].Tick? && events[used - 1].poll.Bad? && !events[used - 1].poll.unrecoverable
            && TrailingErrors(events[..used]) == MAX_WATCH_ERRORS
    ensures TrailingErrors(events[..used]) <= MAX_WATCH_ERRORS
  {
    if used > 0 {
      var h := events[..used - 1];
      assert events[..used] == h + [events[used - 1]];
      HistoryGrows(first, h, events[used - 1]);
      StreakIsBounded(first, h);
    }
  }
}
