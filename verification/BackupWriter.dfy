/** What the writer stage does with the workloads it takes, and why the outcome of a backup
    does not depend on how its goroutines were scheduled. */
module BackupWriter {
  import opened Sequences
  import opened Pipeline
  import opened PipelineTheorems

  /** A dependency that could not be fetched is carried along with its error. */
  datatype Dependency = Dependency(resource: string, fetched: bool)

  datatype Workload = Workload(resource: string, dependencies: seq<Dependency>)

  predicate Fetched(d: Dependency) { d.fetched }

  function ResourceOf(d: Dependency): string { d.resource }

  /** The writes attempted for a workload: itself first, and unless that fails, each of its
      fetched dependencies in order, whether or not the earlier ones could be written. */
  function Attempts(w: Workload, unwritable: set<string>): seq<string> {
    [w.resource] + if w.resource in unwritable then [] else MapSeq(Filter(w.dependencies, Fetched), ResourceOf)
  }

  lemma FetchedAppend(ds: seq<Dependency>, d: Dependency)
    ensures MapSeq(Filter(ds + [d], Fetched), ResourceOf)
            == MapSeq(Filter(ds, Fetched), ResourceOf) + if d.fetched then [d.resource] else []
  {
    FilterAppend(ds, d, Fetched);
    if d.fetched {
      MapSeqAppend(Filter(ds, Fetched), d, ResourceOf);
    }
  }

  /** The workload first, and after it the dependencies at the positions `idx`: exactly the fetched
      ones, in order. */
  ghost predicate ListsFetched(list: seq<string>, idx: seq<nat>, w: Workload) {
    && |list| == 1 + |idx| && list[0] == w.resource
    && (forall j, k :: 0 <= j < k < |idx| ==> idx[j] < idx[k])
    && (forall i: nat :: i in idx <==> i < |w.dependencies| && w.dependencies[i].fetched)
    && (forall j :: 0 <= j < |idx| ==> idx[j] < |w.dependencies| && list[1 + j] == w.dependencies[idx[j]].resource)
  }

  ghost predicate ListsAll(list: seq<string>, w: Workload) { exists idx :: ListsFetched(list, idx, w) }

  lemma AttemptsListAll(w: Workload, unwritable: set<string>)
    requires w.resource !in unwritable
    ensures ListsAll(Attempts(w, unwritable), w)
  {
    var idx := FilterPicksOut(w.dependencies, Fetched);
    assert forall j :: 0 <= j < |idx| ==> idx[j] in idx;
    assert ListsFetched(Attempts(w, unwritable), idx, w);
  }

  lemma ListedIff(list: seq<string>, w: Workload, r: string)
    requires ListsAll(list, w)
    ensures r in list <==> r == w.resource || exists d :: d in w.dependencies && d.fetched && d.resource == r
  {
    var idx :| ListsFetched(list, idx, w);
    if d :| d in w.dependencies && d.fetched && d.resource == r {
      var i :| 0 <= i < |w.dependencies| && w.dependencies[i] == d;
      assert i in idx;
      var j :| 0 <= j < |idx| && idx[j] == i;
      assert list[1 + j] == r;
    }
    if r in list && r != w.resource {
      var k :| 0 <= k < |list| && list[k] == r;
      assert idx[k - 1] in idx && list[1 + (k - 1)] == r;
      assert w.dependencies[idx[k - 1]] in w.dependencies;
    }
  }

  /** A dry run writes nothing and announces what a run would write if nothing failed. */
  method WriteWorkloadWithDeps(w: Workload, dryRun: bool, unwritable: set<string>)
    returns (attempts: seq<string>, announced: seq<string>, ok: bool)
    ensures attempts == if dryRun then [] else Attempts(w, unwritable)
    ensures announced == if dryRun then Attempts(w, {}) else []
    ensures ok <==> dryRun || w.resource !in unwritable
    ensures !dryRun ==> if ok then ListsAll(attempts, w) else attempts == [w.resource]
    ensures dryRun ==> ListsAll(announced, w)
  {
    AttemptsListAll(w, {});
    if w.resource !in unwritable {
      AttemptsListAll(w, unwritable);
    }
    attempts, announced := [], [];
    if dryRun {
      announced := CollectPaths(w);
      return attempts, announced, true;
    }
    attempts := [w.resource];
    if w.resource in unwritable {
      return attempts, announced, false;
    }
    for i := 0 to |w.dependencies|
      invariant attempts == [w.resource] + MapSeq(Filter(w.dependencies[..i], Fetched), ResourceOf)
    {
      var d := w.dependencies[i];
      assert w.dependencies[..i + 1] == w.dependencies[..i] + [d];
      FetchedAppend(w.dependencies[..i], d);
      if !d.fetched {
        continue;
      }
      attempts := attempts + [d.resource];
    }
    assert w.dependencies[..|w.dependencies|] == w.dependencies;
    ok := true;
  }

  method CollectPaths(w: Workload) returns (paths: seq<string>)
    ensures paths == Attempts(w, {})
  {
    paths := [w.resource];
    for i := 0 to |w.dependencies|
      invariant paths == [w.resource] + MapSeq(Filter(w.dependencies[..i], Fetched), ResourceOf)
    {
      var d := w.dependencies[i];
      assert w.dependencies[..i + 1] == w.dependencies[..i] + [d];
      FetchedAppend(w.dependencies[..i], d);
      if !d.fetched {
        continue;
      }
      paths := paths + [d.resource];
    }
    assert w.dependencies[..|w.dependencies|] == w.dependencies;
  }

  /** All writes attempted by a writer that takes the listed workloads in the given order. */
  function WriteLog(listing: seq<Workload>, taken: seq<nat>, unwritable: set<string>): seq<string> {
    if taken == [] then []
    else (if taken[0] < |listing| then Attempts(listing[taken[0]], unwritable) else [])
         + WriteLog(listing, taken[1..], unwritable)
  }

  lemma {:induction false} WriteLogConcat(listing: seq<Workload>, a: seq<nat>, b: seq<nat>, unwritable: set<string>)
    ensures WriteLog(listing, a + b, unwritable) == WriteLog(listing, a, unwritable) + WriteLog(listing, b, unwritable)
  {
    if a == [] {
      assert a + b == b;
    } else {
      assert (a + b)[1..] == a[1..] + b;
      WriteLogConcat(listing, a[1..], b, unwritable);
    }
  }

  /** The write of a resource is attempted for a workload: its own, or if that one succeeds, that of
      a fetched dependency. */
  predicate AttemptedFor(w: Workload, unwritable: set<string>, r: string) {
    || r == w.resource
    || (w.resource !in unwritable && exists d :: d in w.dependencies && d.fetched && d.resource == r)
  }

  /** In the log is exactly what is attempted for some workload that was taken. */
  lemma {:induction false} LoggedIff(listing: seq<Workload>, taken: seq<nat>, unwritable: set<string>, r: string)
    ensures r in WriteLog(listing, taken, unwritable)
            <==> exists i :: i in taken && i < |listing| && AttemptedFor(listing[i], unwritable, r)
  {
    if taken != [] {
      LoggedIff(listing, taken[1..], unwritable, r);
      assert forall i :: i in taken <==> i == taken[0] || i in taken[1..];
      if taken[0] < |listing| {
        AttemptedIff(listing[taken[0]], unwritable, r);
      }
    }
  }

  lemma AttemptedIff(w: Workload, unwritable: set<string>, r: string)
    ensures r in Attempts(w, unwritable) <==> AttemptedFor(w, unwritable, r)
  {
    if w.resource !in unwritable {
      AttemptsListAll(w, unwritable);
      ListedIff(Attempts(w, unwritable), w, r);
    }
  }

  /** A finished uncancelled backup has attempted the write of exactly the resolvable workloads and,
      where that succeeded, of their fetched dependencies. */
  lemma BackupHoldsExactly(listing: seq<Workload>, unwritable: set<string>,
                           c: Config, states: seq<State>, steps: seq<Step>, r: string)
    requires c.Valid() && |c.resolves| == |listing|
    requires IsRun(c, states, steps) && Terminal(states[|steps|]) && !states[|steps|].cancelled
    ensures r in WriteLog(listing, states[|steps|].written, unwritable)
            <==> exists i: nat :: i < |listing| && c.resolves[i] && AttemptedFor(listing[i], unwritable, r)
  {
    var taken := states[|steps|].written;
    LoggedIff(listing, taken, unwritable, r);
    forall i: nat
      ensures i in taken <==> i < |listing| && c.resolves[i]
    {
      DeliveredExactlyOnce(c, states, steps, i);
    }
  }

  /** How often a resource is written. */
  function Writes(listing: seq<Workload>, taken: seq<nat>, unwritable: set<string>, r: string): nat {
    multiset(WriteLog(listing, taken, unwritable))[r]
  }

  lemma WritesConcat(listing: seq<Workload>, a: seq<nat>, b: seq<nat>, unwritable: set<string>, r: string)
    ensures Writes(listing, a + b, unwritable, r)
        == Writes(listing, a, unwritable, r) + Writes(listing, b, unwritable, r)
  {
    WriteLogConcat(listing, a, b, unwritable);
  }

  lemma {:induction false} WritesOfPermutation(listing: seq<Workload>, a: seq<nat>, b: seq<nat>,
                                               unwritable: set<string>, r: string)
    requires multiset(a) == multiset(b)
    ensures Writes(listing, a, unwritable, r) == Writes(listing, b, unwritable, r)
    decreases |a|
  {
    if a == [] {
      assert |multiset(b)| == 0;
    } else {
      var rest, front, back := RemoveOne(a, b);
      WritesOfPermutation(listing, a[1..], rest, unwritable, r);
      assert a == [a[0]] + a[1..] && b == front + ([a[0]] + back) && rest == front + back;
      WritesConcat(listing, [a[0]], a[1..], unwritable, r);
      WritesConcat(listing, front, [a[0]] + back, unwritable, r);
      WritesConcat(listing, [a[0]], back, unwritable, r);
      WritesConcat(listing, front, back, unwritable, r);
    }
  }

  lemma RemoveOne(a: seq<nat>, b: seq<nat>) returns (rest: seq<nat>, front: seq<nat>, back: seq<nat>)
    requires a != [] && multiset(a) == multiset(b)
    ensures b == front + ([a[0]] + back) && rest == front + back
    ensures multiset(a[1..]) == multiset(rest)
  {
    assert a == [a[0]] + a[1..];
    assert a[0] in multiset(b);
    var j :| 0 <= j < |b| && b[j] == a[0];
    front, back := b[..j], b[j + 1..];
    rest := front + back;
    assert b == front + ([a[0]] + back);
    SplitCount([a[0]], a[1..]);
    SplitCount(front, [a[0]] + back);
    SplitCount([a[0]], back);
    SplitCount(front, back);
    var mx, mf, mb := multiset([a[0]]), multiset(front), multiset(back);
    assert mx + multiset(a[1..]) == mf + (mx + mb);
    assert multiset(a[1..]) == (mx + multiset(a[1..])) - mx == mf + mb;
  }

  lemma SplitCount(a: seq<nat>, b: seq<nat>)
    ensures multiset(a + b) == multiset(a) + multiset(b)
  {
  }

  lemma SameCounts(a: seq<nat>, b: seq<nat>)
    requires forall i: nat :: multiset(a)[i] == multiset(b)[i]
    ensures multiset(a) == multiset(b)
  {
    var m, n: multiset<nat> := multiset(a), multiset(b);
    assert forall x: nat :: m[x] == n[x];
  }

  /** Two uncancelled backups of the same listing attempt the same writes, equally often,
      whatever their numbers of workers and however their goroutines interleave. */
  lemma BackupIsScheduleIndependent(listing: seq<Workload>, unwritable: set<string>,
                                    c1: Config, states1: seq<State>, steps1: seq<Step>,
                                    c2: Config, states2: seq<State>, steps2: seq<Step>)
    requires c1.Valid() && c2.Valid() && c1.resolves == c2.resolves && |c1.resolves| == |listing|
    requires IsRun(c1, states1, steps1) && Terminal(states1[|steps1|]) && !states1[|steps1|].cancelled
    requires IsRun(c2, states2, steps2) && Terminal(states2[|steps2|]) && !states2[|steps2|].cancelled
    ensures forall r :: Writes(listing, states1[|steps1|].written, unwritable, r)
                        == Writes(listing, states2[|steps2|].written, unwritable, r)
  {
    var a: seq<nat>, b: seq<nat> := states1[|steps1|].written, states2[|steps2|].written;
    forall i: nat
      ensures multiset(a)[i] == multiset(b)[i]
    {
      DeliveredExactlyOnce(c1, states1, steps1, i);
      DeliveredExactlyOnce(c2, states2, steps2, i);
    }
    SameCounts(a, b);
    forall r
      ensures Writes(listing, a, unwritable, r) == Writes(listing, b, unwritable, r)
    {
      WritesOfPermutation(listing, a, b, unwritable, r);
    }
  }
}
