/** Installing dependencies: which ones, creating them in order, and waiting for them in parallel.
    What a run did is read off the cluster's log of actions. */
module Install {
  import opened InstallChecks
  import opened Optional
  import opened Sequences

  datatype Dependency = Dependency(name: string, enabled: string, namespace: string)

  datatype Wait = Ready(version: string) | WaitError

  /** What the cluster answers: for a dependency, whether it is installed or requested (or that
      this cannot be told), whether its resources can be created, and how waiting for it ends;
      for a namespace, whether it has the service account. */
  datatype World = World(
    check: Dependency -> Check,
    create: Dependency -> bool,
    wait: Dependency -> Wait,
    hasAccount: string -> bool)

  /** `target` is the explicit list of names, if one was given. */
  datatype Options = Options(target: Option<seq<string>>, includeOptional: bool)

  predicate ShouldInstallDep(o: Options, d: Dependency) {
    match o.target
    case Some(names) => d.name in names
    case None => d.enabled == "true" || (d.enabled == "auto" && o.includeOptional)
  }

  /** With an explicit list exactly what it names is wanted; without one, what is enabled, and what
      is optional only on request. */
  lemma WantedIff(o: Options, d: Dependency)
    ensures ShouldInstallDep(o, d) <==>
              || (o.target.Some? && exists i :: 0 <= i < |o.target.value| && o.target.value[i] == d.name)
              || (o.target.None? && d.enabled == "true")
              || (o.target.None? && d.enabled == "auto" && o.includeOptional)
  {
  }

  // ---- Phase 0: which dependencies are to be installed ----

  function IsWanted(o: Options): Dependency -> bool { (d: Dependency) => ShouldInstallDep(o, d) }

  function IsMissing(world: World): Dependency -> bool { (d: Dependency) => world.check(d) == Installed(false) }

  function IsToInstall(o: Options, world: World): Dependency -> bool {
    (d: Dependency) => ShouldInstallDep(o, d) && world.check(d) == Installed(false)
  }

  predicate SomeCheckFails(deps: seq<Dependency>, o: Options, world: World) {
    exists d :: d in deps && ShouldInstallDep(o, d) && world.check(d).CheckError?
  }

  lemma {:induction false} FilterTwice(deps: seq<Dependency>, o: Options, world: World)
    ensures Filter(Filter(deps, IsWanted(o)), IsMissing(world)) == Filter(deps, IsToInstall(o, world))
  {
    if deps != [] {
      FilterTwice(deps[1..], o, world);
      if ShouldInstallDep(o, deps[0]) {
        var rest := Filter(deps[1..], IsWanted(o));
        assert Filter(deps, IsWanted(o)) == [deps[0]] + rest;
        assert ([deps[0]] + rest)[1..] == rest;
      }
    }
  }

  /** The positions of the wanted dependencies. */
  method WantedIndices(deps: seq<Dependency>, o: Options) returns (indices: seq<nat>)
    ensures forall j :: 0 <= j < |indices| ==> indices[j] < |deps|
    ensures At(deps, indices) == Filter(deps, IsWanted(o))
  {
    indices := [];
    for i := 0 to |deps|
      invariant forall j :: 0 <= j < |indices| ==> indices[j] < |deps|
      invariant At(deps, indices) == Filter(deps[..i], IsWanted(o))
    {
      FilterPrefix(deps, i, IsWanted(o));
      if ShouldInstallDep(o, deps[i]) {
        assert (indices + [i])[..|indices|] == indices;
        indices := indices + [i];
      }
    }
    assert deps[..|deps|] == deps;
  }

  /** The elements at some positions. */
  function At(deps: seq<Dependency>, indices: seq<nat>): (r: seq<Dependency>)
    requires forall j :: 0 <= j < |indices| ==> indices[j] < |deps|
    ensures |r| == |indices|
  {
    if indices == [] then []
    else At(deps, indices[..|indices| - 1]) + [deps[indices[|indices| - 1]]]
  }

  method KeepMissing(wanted: seq<Dependency>, installed: seq<bool>, world: World) returns (missing: seq<Dependency>)
    requires |installed| == |wanted|
    requires forall j :: 0 <= j < |wanted| ==> world.check(wanted[j]) == Installed(installed[j])
    ensures missing == Filter(wanted, IsMissing(world))
  {
    missing := [];
    for j := 0 to |wanted|
      invariant missing == Filter(wanted[..j], IsMissing(world))
    {
      FilterPrefix(wanted, j, IsMissing(world));
      if installed[j] {
        continue;
      }
      missing := missing + [wanted[j]];
    }
    assert wanted[..|wanted|] == wanted;
  }

  function AnswersFor(world: World, wanted: seq<Dependency>): seq<Check> {
    seq(|wanted|, j requires 0 <= j < |wanted| => world.check(wanted[j]))
  }

  /** The wanted dependencies that are missing, in the order given, whatever the order in
      which the checks complete; an error iff the check of a wanted dependency fails. */
  method FilterDepsToInstall(deps: seq<Dependency>, o: Options, world: World)
    returns (toInstall: seq<Dependency>, failed: bool, ghost states: seq<State>, ghost steps: seq<Step>)
    ensures IsRun(AnswersFor(world, Filter(deps, IsWanted(o))), states, steps) && Terminal(states[|steps|])
    ensures forall i :: 0 <= i < |states| ==> HoldingCount(states[i].checkers) <= 8
    ensures failed <==> SomeCheckFails(deps, o, world)
    ensures !failed ==> toInstall == Filter(deps, IsToInstall(o, world))
  {
    var indices := WantedIndices(deps, o);
    var wanted := At(deps, indices);
    FilterTwice(deps, o, world);
    ErrorsAreOfWanted(deps, o, world, wanted, AnswersFor(world, wanted));
    if |indices| == 0 {
      states, steps := [Init([])], [];
      return [], false, states, steps;
    }
    var installed;
    installed, failed, states, steps := RunChecks(AnswersFor(world, wanted));
    if failed {
      return [], true, states, steps;
    }
    toInstall := KeepMissing(wanted, installed, world);
  }

  lemma ErrorsAreOfWanted(deps: seq<Dependency>, o: Options, world: World, wanted: seq<Dependency>, answers: seq<Check>)
    requires wanted == Filter(deps, IsWanted(o)) && |answers| == |wanted|
    requires forall j :: 0 <= j < |wanted| ==> answers[j] == world.check(wanted[j])
    ensures CheckError in answers <==> exists d :: d in deps && ShouldInstallDep(o, d) && world.check(d).CheckError?
  {
    if CheckError in answers {
      var j :| 0 <= j < |answers| && answers[j] == CheckError;
      assert wanted[j] in wanted;
    }
    if d :| d in deps && ShouldInstallDep(o, d) && world.check(d).CheckError? {
      assert d in wanted;
      var j :| 0 <= j < |wanted| && wanted[j] == d;
      assert answers[j] in answers;
    }
  }

  // ---- The cluster ----

  /** An action on the cluster: looking for the service account of a namespace, creating the
      resources of the dependency at a position, beginning and ending the wait for it. */
  datatype Action =
    | LookUp(namespace: string)
    | Create(i: nat, d: Dependency)
    | BeginWait(i: nat, d: Dependency)
    | EndWait(i: nat, d: Dependency)

  class Cluster {
    const world: World
    ghost var log: seq<Action>

    constructor (world: World)
      ensures this.world == world && log == []
    {
      this.world, log := world, [];
    }

    method LookUpAccount(ns: string) returns (found: bool)
      modifies this
      ensures log == old(log) + [LookUp(ns)] && found == world.hasAccount(ns)
    {
      log := log + [LookUp(ns)];
      found := world.hasAccount(ns);
    }

    method CreateResources(d: Dependency, ghost i: nat) returns (ok: bool)
      modifies this
      ensures log == old(log) + [Create(i, d)] && ok == world.create(d)
    {
      log := log + [Create(i, d)];
      ok := world.create(d);
    }

    method StartWaiting(d: Dependency, ghost i: nat)
      modifies this
      ensures log == old(log) + [BeginWait(i, d)]
    {
      log := log + [BeginWait(i, d)];
    }

    method FinishWaiting(d: Dependency, ghost i: nat) returns (answer: Wait)
      modifies this
      ensures log == old(log) + [EndWait(i, d)] && answer == world.wait(d)
    {
      log := log + [EndWait(i, d)];
      answer := world.wait(d);
    }
  }

  // ---- Phase 1: create in order ----

  datatype Status = Unset | Done(version: string) | Failed

  /** How the installation of one dependency ends. */
  function StatusOf(world: World, d: Dependency): Status {
    if !world.create(d) then Failed
    else match world.wait(d)
      case Ready(version) => Done(version)
      case WaitError => Failed
  }

  function Creates(toInstall: seq<Dependency>): seq<Action> {
    seq(|toInstall|, i requires 0 <= i < |toInstall| => Create(i, toInstall[i]))
  }

  /** The positions whose resources could be created. */
  function Created(toInstall: seq<Dependency>, world: World): set<nat> {
    set i: nat | i < |toInstall| && world.create(toInstall[i])
  }

  /** Attempts every creation, in order. */
  method CreateAll(cluster: Cluster, toInstall: seq<Dependency>, results: array<Status>) returns (pending: seq<nat>)
    requires results.Length == |toInstall|
    modifies cluster, results
    ensures cluster.log == old(cluster.log) + Creates(toInstall)
    ensures forall j, k :: 0 <= j < k < |pending| ==> pending[j] < pending[k]
    ensures forall i: nat :: i in pending <==> i in Created(toInstall, cluster.world)
    ensures forall i :: 0 <= i < |toInstall| ==>
              results[i] == if cluster.world.create(toInstall[i]) then Unset else Failed
  {
    pending := [];
    for i := 0 to |toInstall|
      invariant cluster.log == old(cluster.log) + Creates(toInstall[..i])
      invariant forall j, k :: 0 <= j < k < |pending| ==> pending[j] < pending[k]
      invariant forall k: nat :: k in pending <==> k < i && cluster.world.create(toInstall[k])
      invariant forall j :: 0 <= j < |pending| ==> pending[j] < i
      invariant forall k :: 0 <= k < i ==> results[k] == if cluster.world.create(toInstall[k]) then Unset else Failed
    {
      results[i] := Unset;
      var ok := cluster.CreateResources(toInstall[i], i);
      assert Creates(toInstall[..i + 1]) == Creates(toInstall[..i]) + [Create(i, toInstall[i])];
      if !ok {
        results[i] := Failed;
      } else {
        pending := pending + [i];
      }
    }
    assert toInstall[..|toInstall|] == toInstall;
  }

  // ---- Phase 2: wait in parallel ----

  predicate AreWaits(actions: seq<Action>, toInstall: seq<Dependency>) {
    forall k :: 0 <= k < |actions| ==>
      && (actions[k].BeginWait? || actions[k].EndWait?)
      && actions[k].i < |toInstall| && actions[k].d == toInstall[actions[k].i]
  }

  /** How often the wait for the dependency at a position has begun, or ended. */
  ghost function Begins(actions: seq<Action>, toInstall: seq<Dependency>, i: nat): nat
    requires i < |toInstall|
  {
    multiset(actions)[BeginWait(i, toInstall[i])]
  }

  ghost function Ends(actions: seq<Action>, toInstall: seq<Dependency>, i: nat): nat
    requires i < |toInstall|
  {
    multiset(actions)[EndWait(i, toInstall[i])]
  }

  ghost predicate WaitsOnce(actions: seq<Action>, toInstall: seq<Dependency>, begun: set<nat>, ended: set<nat>) {
    && (forall i: nat :: i < |toInstall| ==> Begins(actions, toInstall, i) == if i in begun then 1 else 0)
    && (forall i: nat :: i < |toInstall| ==> Ends(actions, toInstall, i) == if i in ended then 1 else 0)
  }

  predicate EndsAfterBegin(actions: seq<Action>) {
    forall e :: 0 <= e < |actions| && actions[e].EndWait? ==> BeginWait(actions[e].i, actions[e].d) in actions[..e]
  }

  /** These actions are waits for the dependencies at the positions `begun`, each begun exactly
      once, and those at the positions `ended` have ended exactly once, after they began. */
  ghost predicate Waits(actions: seq<Action>, toInstall: seq<Dependency>, begun: set<nat>, ended: set<nat>) {
    AreWaits(actions, toInstall) && WaitsOnce(actions, toInstall, begun, ended) && EndsAfterBegin(actions)
  }

  lemma EndsAfterBeginGrows(actions: seq<Action>, a: Action)
    requires EndsAfterBegin(actions) && (a.EndWait? ==> BeginWait(a.i, a.d) in actions)
    ensures EndsAfterBegin(actions + [a])
  {
    var more := actions + [a];
    assert more[..|actions|] == actions;
    forall e | 0 <= e < |actions| ensures more[e] == actions[e] && more[..e] == actions[..e] {
    }
  }

  lemma WaitBegins(actions: seq<Action>, toInstall: seq<Dependency>, begun: set<nat>, ended: set<nat>, i: nat)
    requires Waits(actions, toInstall, begun, ended) && i < |toInstall| && i !in begun
    ensures Waits(actions + [BeginWait(i, toInstall[i])], toInstall, begun + {i}, ended)
  {
    var a := BeginWait(i, toInstall[i]);
    forall j: nat | j < |toInstall|
      ensures Begins(actions + [a], toInstall, j) == if j in begun + {i} then 1 else 0
      ensures Ends(actions + [a], toInstall, j) == if j in ended then 1 else 0
    {
      AppendCount(actions, a, BeginWait(j, toInstall[j]));
      AppendCount(actions, a, EndWait(j, toInstall[j]));
    }
    EndsAfterBeginGrows(actions, a);
  }

  lemma WaitEnds(actions: seq<Action>, toInstall: seq<Dependency>, begun: set<nat>, ended: set<nat>, i: nat)
    requires Waits(actions, toInstall, begun, ended) && i < |toInstall| && i in begun && i !in ended
    ensures Waits(actions + [EndWait(i, toInstall[i])], toInstall, begun, ended + {i})
  {
    var a := EndWait(i, toInstall[i]);
    forall j: nat | j < |toInstall|
      ensures Begins(actions + [a], toInstall, j) == if j in begun then 1 else 0
      ensures Ends(actions + [a], toInstall, j) == if j in ended + {i} then 1 else 0
    {
      AppendCount(actions, a, BeginWait(j, toInstall[j]));
      AppendCount(actions, a, EndWait(j, toInstall[j]));
    }
    assert Begins(actions, toInstall, i) == 1;
    EndsAfterBeginGrows(actions, a);
  }

  /** The end of one wait, under the lock: only the slot of its own position is written. */
  method RecordResult(results: array<Status>, i: nat, answer: Wait)
    requires i < results.Length
    modifies results
    ensures results[..] == old(results[..])[i := if answer.WaitError? then Failed else Done(answer.version)]
  {
    if answer.WaitError? {
      results[i] := Failed;
    } else {
      results[i] := Done(answer.version);
    }
  }

  /** The slots of the positions in `ended` are as the world decides, the others as at the start. */
  ghost predicate Filled(results: seq<Status>, start: seq<Status>, toInstall: seq<Dependency>,
                         world: World, ended: set<nat>)
  {
    && |results| == |start| == |toInstall|
    && forall i :: 0 <= i < |toInstall| ==>
         results[i] == if i in ended then StatusOf(world, toInstall[i]) else start[i]
  }

  /** A goroutine begins its wait. */
  method BeginOne(cluster: Cluster, toInstall: seq<Dependency>, i: nat,
                  ghost base: seq<Action>, ghost waits: seq<Action>, ghost begun: set<nat>, ghost ended: set<nat>)
    returns (ghost more: seq<Action>)
    requires i < |toInstall| && i !in begun
    requires cluster.log == base + waits && Waits(waits, toInstall, begun, ended)
    modifies cluster
    ensures cluster.log == base + more && Waits(more, toInstall, begun + {i}, ended)
  {
    WaitBegins(waits, toInstall, begun, ended, i);
    more := waits + [BeginWait(i, toInstall[i])];
    cluster.StartWaiting(toInstall[i], i);
    assert base + more == base + waits + [BeginWait(i, toInstall[i])];
  }

  /** A goroutine ends its wait and records the result. */
  method FinishOne(cluster: Cluster, toInstall: seq<Dependency>, results: array<Status>, i: nat,
                   ghost start: seq<Status>, ghost base: seq<Action>,
                   ghost waits: seq<Action>, ghost begun: set<nat>, ghost ended: set<nat>)
    returns (ghost more: seq<Action>)
    requires i < |toInstall| && i in begun && i !in ended && cluster.world.create(toInstall[i])
    requires cluster.log == base + waits && Waits(waits, toInstall, begun, ended)
    requires Filled(results[..], start, toInstall, cluster.world, ended)
    modifies cluster, results
    ensures cluster.log == base + more && Waits(more, toInstall, begun, ended + {i})
    ensures Filled(results[..], start, toInstall, cluster.world, ended + {i})
  {
    WaitEnds(waits, toInstall, begun, ended, i);
    more := waits + [EndWait(i, toInstall[i])];
    var answer := cluster.FinishWaiting(toInstall[i], i);
    assert base + more == base + waits + [EndWait(i, toInstall[i])];
    RecordResult(results, i, answer);
  }

  /** One goroutine per pending position, run in any order: each waits and then writes the
      slot of its own position. */
  method WaitForOperatorsParallel(cluster: Cluster, toInstall: seq<Dependency>, results: array<Status>,
                                  pending: seq<nat>)
    returns (ghost waits: seq<Action>)
    requires results.Length == |toInstall|
    requires forall i: nat :: i in pending <==> i in Created(toInstall, cluster.world)
    modifies cluster, results
    ensures cluster.log == old(cluster.log) + waits
    ensures Waits(waits, toInstall, Created(toInstall, cluster.world), Created(toInstall, cluster.world))
    ensures Filled(results[..], old(results[..]), toInstall, cluster.world, Created(toInstall, cluster.world))
  {
    waits := [];
    var all: set<nat> := set i | i in pending;
    var begun: set<nat>, ended: set<nat> := {}, {};
    assert all == Created(toInstall, cluster.world);
    ghost var start, base := results[..], cluster.log;
    while ended != all
      invariant ended <= begun <= all
      invariant cluster.log == base + waits && Waits(waits, toInstall, begun, ended)
      invariant Filled(results[..], start, toInstall, cluster.world, ended)
      decreases |all - begun| + |all - ended|
    {
      begun, ended, waits := WaitTurn(cluster, toInstall, results, all, begun, ended, start, base, waits);
    }
  }

  /** The scheduler picks any goroutine that has not ended. */
  method WaitTurn(cluster: Cluster, toInstall: seq<Dependency>, results: array<Status>, all: set<nat>,
                  begun: set<nat>, ended: set<nat>,
                  ghost start: seq<Status>, ghost base: seq<Action>, ghost waits: seq<Action>)
    returns (begun': set<nat>, ended': set<nat>, ghost more: seq<Action>)
    requires all == Created(toInstall, cluster.world) && ended <= begun <= all && ended < all
    requires cluster.log == base + waits && Waits(waits, toInstall, begun, ended)
    requires Filled(results[..], start, toInstall, cluster.world, ended)
    modifies cluster, results
    ensures ended' <= begun' <= all && |all - begun'| + |all - ended'| < |all - begun| + |all - ended|
    ensures cluster.log == base + more && Waits(more, toInstall, begun', ended')
    ensures Filled(results[..], start, toInstall, cluster.world, ended')
  {
    var i :| i in all && i !in ended;
    if i !in begun {
      Shrinks(all, begun, i);
      begun', ended' := begun + {i}, ended;
      more := BeginOne(cluster, toInstall, i, base, waits, begun, ended);
    } else {
      Shrinks(all, ended, i);
      begun', ended' := begun, ended + {i};
      more := FinishOne(cluster, toInstall, results, i, start, base, waits, begun, ended);
    }
  }

  lemma Shrinks(all: set<nat>, some: set<nat>, i: nat)
    requires i in all && i !in some
    ensures |all - (some + {i})| < |all - some|
    ensures some <= all ==> some + {i} <= all
  {
    assert all - some == all - (some + {i}) + {i};
  }

  // ---- Both phases ----

  function FailedNames(toInstall: seq<Dependency>, world: World): seq<string> {
    if toInstall == [] then []
    else FailedNames(toInstall[..|toInstall| - 1], world)
         + if StatusOf(world, toInstall[|toInstall| - 1]).Failed? then [toInstall[|toInstall| - 1].name] else []
  }

  datatype Report = Report(results: seq<Status>, failed: seq<string>)

  /** Every slot ends up as the world decides for its own dependency, and the errors are those of
      the failed slots. */
  ghost predicate Reports(report: Report, toInstall: seq<Dependency>, world: World) {
    && |report.results| == |toInstall|
    && (forall i :: 0 <= i < |toInstall| ==>
          report.results[i] == StatusOf(world, toInstall[i]) && !report.results[i].Unset?)
    && report.failed == FailedNames(toInstall, world)
  }

  /** A slot says failed iff the creation or the wait failed, and otherwise which version came up. */
  lemma ReportSays(report: Report, toInstall: seq<Dependency>, world: World, i: nat)
    requires Reports(report, toInstall, world) && i < |toInstall|
    ensures report.results[i] == Failed <==> !world.create(toInstall[i]) || world.wait(toInstall[i]) == WaitError
    ensures forall v :: report.results[i] == Done(v) <==>
              world.create(toInstall[i]) && world.wait(toInstall[i]) == Ready(v)
  {
  }

  method CollectErrors(toInstall: seq<Dependency>, world: World, results: seq<Status>) returns (report: Report)
    requires |results| == |toInstall|
    requires forall i :: 0 <= i < |toInstall| ==> results[i] == StatusOf(world, toInstall[i])
    ensures Reports(report, toInstall, world)
  {
    var failed: seq<string> := [];
    for i := 0 to |toInstall|
      invariant failed == FailedNames(toInstall[..i], world)
    {
      assert toInstall[..i + 1][..|toInstall[..i + 1]| - 1] == toInstall[..i];
      if results[i].Failed? {
        failed := failed + [toInstall[i].name];
      }
    }
    assert toInstall[..|toInstall|] == toInstall;
    report := Report(results, failed);
  }

  /** First every creation, in order; only then the waits, one for each dependency that could be
      created and none for the others. */
  method InstallAll(cluster: Cluster, toInstall: seq<Dependency>) returns (report: Report, ghost waits: seq<Action>)
    modifies cluster
    ensures Reports(report, toInstall, cluster.world)
    ensures cluster.log == old(cluster.log) + Creates(toInstall) + waits
    ensures Waits(waits, toInstall, Created(toInstall, cluster.world), Created(toInstall, cluster.world))
  {
    var results := new Status[|toInstall|](i => Unset);
    var pending := CreateAll(cluster, toInstall, results);
    waits := [];
    if |pending| > 0 {
      waits := WaitForOperatorsParallel(cluster, toInstall, results, pending);
    } else {
      assert Created(toInstall, cluster.world) == {};
    }
    forall i | 0 <= i < |toInstall| ensures results[i] == StatusOf(cluster.world, toInstall[i]) {
      assert i in pending <==> i in Created(toInstall, cluster.world);
    }
    report := CollectErrors(toInstall, cluster.world, results[..]);
  }

  /** The run reports an error iff the installation of some dependency failed. */
  lemma {:induction false} ErrorIffSomeFailed(toInstall: seq<Dependency>, world: World)
    ensures FailedNames(toInstall, world) != [] <==> exists d :: d in toInstall && StatusOf(world, d).Failed?
    ensures forall n :: n in FailedNames(toInstall, world) <==>
              exists d :: d in toInstall && StatusOf(world, d).Failed? && d.name == n
  {
    if toInstall != [] {
      var front, d := toInstall[..|toInstall| - 1], toInstall[|toInstall| - 1];
      ErrorIffSomeFailed(front, world);
      assert toInstall == front + [d];
      assert forall x :: x in toInstall <==> x in front || x == d;
    }
  }

  /** Before a wait begins, every creation has been attempted. */
  lemma CreatedBeforeWaits(log: seq<Action>, toInstall: seq<Dependency>, world: World, waits: seq<Action>, k: nat)
    requires log == Creates(toInstall) + waits
    requires Waits(waits, toInstall, Created(toInstall, world), Created(toInstall, world))
    requires k < |log| && log[k].BeginWait?
    ensures forall i :: 0 <= i < |toInstall| ==> Create(i, toInstall[i]) in log[..k]
    ensures world.create(log[k].d)
  {
    assert k >= |toInstall|;
    forall i | 0 <= i < |toInstall| ensures Create(i, toInstall[i]) in log[..k] {
      assert log[..k][i] == Create(i, toInstall[i]);
    }
    var a := waits[k - |toInstall|];
    assert a in multiset(waits) && a == BeginWait(a.i, toInstall[a.i]);
    assert Begins(waits, toInstall, a.i) > 0;
  }

  // ---- Service accounts, needed by the newer OLM API before anything is created ----

  function LookUpOf(ns: string): Action { LookUp(ns) }

  /** The namespaces looked at, each once: all of them, or up to the first without the account. */
  ghost predicate LooksAt(checked: seq<string>, deps: seq<Dependency>, hasAccount: string -> bool, ok: bool) {
    && (forall j, k :: 0 <= j < k < |checked| ==> checked[j] != checked[k])
    && (forall ns :: ns in checked ==> exists d :: d in deps && d.namespace == ns)
    && (forall j :: 0 <= j < |checked| ==> hasAccount(checked[j]) == (ok || j < |checked| - 1))
    && (if ok then forall d :: d in deps ==> d.namespace in checked else checked != [])
  }

  method ValidateServiceAccounts(cluster: Cluster, v1: bool, deps: seq<Dependency>)
    returns (ok: bool, ghost checked: seq<string>)
    modifies cluster
    ensures cluster.log == old(cluster.log) + MapSeq(checked, LookUpOf)
    ensures ok <==> !v1 || forall d :: d in deps ==> cluster.world.hasAccount(d.namespace)
    ensures if v1 then LooksAt(checked, deps, cluster.world.hasAccount, ok) else checked == []
  {
    checked := [];
    if !v1 {
      return true, checked;
    }
    var seen: set<string> := {};
    for i := 0 to |deps|
      invariant cluster.log == old(cluster.log) + MapSeq(checked, LookUpOf)
      invariant LooksAt(checked, deps[..i], cluster.world.hasAccount, true)
      invariant forall ns :: ns in seen <==> ns in checked
    {
      var ns := deps[i].namespace;
      assert deps[..i + 1] == deps[..i] + [deps[i]];
      if ns in seen {
        continue;
      }
      seen := seen + {ns};
      var found := cluster.LookUpAccount(ns);
      MapSeqAppend(checked, ns, LookUpOf);
      LookedAt(checked, deps, cluster.world.hasAccount, i);
      checked := checked + [ns];
      if !found {
        assert deps[i] in deps;
        return false, checked;
      }
    }
    assert deps[..|deps|] == deps;
    ok := true;
  }

  lemma LookedAt(checked: seq<string>, deps: seq<Dependency>, hasAccount: string -> bool, i: nat)
    requires i < |deps| && LooksAt(checked, deps[..i], hasAccount, true) && deps[i].namespace !in checked
    ensures hasAccount(deps[i].namespace) ==> LooksAt(checked + [deps[i].namespace], deps[..i + 1], hasAccount, true)
    ensures !hasAccount(deps[i].namespace) ==> LooksAt(checked + [deps[i].namespace], deps, hasAccount, false)
  {
    var more := checked + [deps[i].namespace];
    assert deps[..i + 1] == deps[..i] + [deps[i]];
    forall ns | ns in more
      ensures exists d :: d in deps[..i + 1] && d in deps && d.namespace == ns
    {
      if ns in checked {
        var d :| d in deps[..i] && d.namespace == ns;
        assert d in deps[..i + 1] && d in deps;
      } else {
        assert deps[i] in deps[..i + 1];
      }
    }
  }

  // ---- The whole run ----

  predicate SomeAccountMissing(deps: seq<Dependency>, hasAccount: string -> bool) {
    exists d :: d in deps && !hasAccount(d.namespace)
  }

  datatype Outcome = FilterFailed | NothingToDo | AccountMissing | Completed(report: Report)

  /** What a run leaves in the log: the accounts looked up, and if it went on to the end, every
      creation in order and then the waits. */
  ghost predicate RunLog(log: seq<Action>, checked: seq<string>, waits: seq<Action>, outcome: Outcome,
                         v1: bool, work: seq<Dependency>, world: World)
  {
    if outcome.FilterFailed? || outcome.NothingToDo? then log == []
    else
      && (if v1 then LooksAt(checked, work, world.hasAccount, outcome.Completed?) else checked == [])
      && (if outcome.AccountMissing? then log == MapSeq(checked, LookUpOf)
          else
            && log == MapSeq(checked, LookUpOf) + Creates(work) + waits
            && Waits(waits, work, Created(work, world), Created(work, world)))
  }

  method RunInstall(cluster: Cluster, deps: seq<Dependency>, o: Options, v1: bool)
    returns (outcome: Outcome, ghost log: seq<Action>, ghost checked: seq<string>, ghost waits: seq<Action>)
    modifies cluster
    ensures var world, work := cluster.world, Filter(deps, IsToInstall(o, cluster.world));
            && cluster.log == old(cluster.log) + log
            && RunLog(log, checked, waits, outcome, v1, work, world)
            && (outcome.FilterFailed? <==> SomeCheckFails(deps, o, world))
            && (outcome.NothingToDo? <==> !SomeCheckFails(deps, o, world) && work == [])
            && (outcome.AccountMissing? <==>
                  !SomeCheckFails(deps, o, world) && v1 && SomeAccountMissing(work, world.hasAccount))
            && (outcome.Completed? ==>
                  && Reports(outcome.report, work, world)
                  && (outcome.report.failed != [] <==> exists d :: d in work && StatusOf(world, d).Failed?))
  {
    log, checked, waits := [], [], [];
    var toInstall, failed;
    ghost var states, steps;
    toInstall, failed, states, steps := FilterDepsToInstall(deps, o, cluster.world);
    if failed {
      return FilterFailed, log, checked, waits;
    }
    if |toInstall| == 0 {
      return NothingToDo, log, checked, waits;
    }
    outcome, log, checked, waits := InstallWanted(cluster, v1, toInstall);
    ErrorIffSomeFailed(toInstall, cluster.world);
  }

  method InstallWanted(cluster: Cluster, v1: bool, toInstall: seq<Dependency>)
    returns (outcome: Outcome, ghost log: seq<Action>, ghost checked: seq<string>, ghost waits: seq<Action>)
    modifies cluster
    ensures cluster.log == old(cluster.log) + log && (outcome.AccountMissing? || outcome.Completed?)
    ensures RunLog(log, checked, waits, outcome, v1, toInstall, cluster.world)
    ensures outcome.AccountMissing? <==> v1 && SomeAccountMissing(toInstall, cluster.world.hasAccount)
    ensures outcome.Completed? ==> Reports(outcome.report, toInstall, cluster.world)
  {
    waits := [];
    var ok;
    ok, checked := ValidateServiceAccounts(cluster, v1, toInstall);
    log := MapSeq(checked, LookUpOf);
    if !ok {
      return AccountMissing, log, checked, waits;
    }
    ghost var start := cluster.log;
    var report;
    report, waits := InstallAll(cluster, toInstall);
    Joined(old(cluster.log), log, Creates(toInstall), waits);
    log := log + Creates(toInstall) + waits;
    outcome := Completed(report);
  }

  // ---- slicesEqualUnordered ----

  function CountIn(counts: map<string, int>, v: string): int { if v in counts then counts[v] else 0 }

  /** Equal up to order, duplicates counted. */
  method SlicesEqualUnordered(a: seq<string>, b: seq<string>) returns (equal: bool)
    ensures equal <==> multiset(a) == multiset(b)
  {
    if |a| != |b| {
      assert |multiset(a)| == |a| && |multiset(b)| == |b|;
      return false;
    }
    var counts := CountUp(a);
    for i := 0 to |b|
      invariant forall v :: CountIn(counts, v) + multiset(b[..i])[v] == multiset(a)[v]
      invariant forall v :: CountIn(counts, v) >= 0
    {
      PrefixGrows(b, i);
      counts := counts[b[i] := CountIn(counts, b[i]) - 1];
      if counts[b[i]] < 0 {
        MorePrefixThanAll(b, i + 1, b[i]);
        return false;
      }
    }
    assert b[..|b|] == b;
    assert multiset(b) <= multiset(a);
    SubsetOfSameSize(multiset(b), multiset(a));
    equal := true;
  }

  method CountUp(a: seq<string>) returns (counts: map<string, int>)
    ensures forall v :: CountIn(counts, v) == multiset(a)[v]
  {
    counts := map[];
    for i := 0 to |a|
      invariant forall v :: CountIn(counts, v) == multiset(a[..i])[v]
    {
      assert a[..i + 1] == a[..i] + [a[i]];
      counts := counts[a[i] := CountIn(counts, a[i]) + 1];
    }
    assert a[..|a|] == a;
  }

  lemma PrefixGrows(b: seq<string>, i: nat)
    requires i < |b|
    ensures forall v :: multiset(b[..i + 1])[v] == multiset(b[..i])[v] + if v == b[i] then 1 else 0
  {
    assert b[..i + 1] == b[..i] + [b[i]];
  }

  lemma MorePrefixThanAll(b: seq<string>, i: nat, v: string)
    requires i <= |b|
    ensures multiset(b[..i])[v] <= multiset(b)[v]
  {
    assert b == b[..i] + b[i..];
  }

  lemma SubsetOfSameSize(m: multiset<string>, n: multiset<string>)
    requires m <= n && |m| == |n|
    ensures m == n
  {
    assert n == m + (n - m);
    assert |n - m| == 0;
  }
}
