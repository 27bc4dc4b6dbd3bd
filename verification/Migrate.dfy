/** The live migration and the restore from backup, run against a server that other writers
    use at the same time. What a run did is read off the server's log of requests. */
module Migrate {
  import opened Sequences
  import opened Json
  import opened RayRewrite
  import opened ApiServer
  import opened MigrateTheorems
  import opened Paths
  import KueueAnnotations

  const DELETION_WAIT_MAX_ATTEMPTS := 60

  const DEFAULT_NAMESPACE := "default"

  function DocId(doc: Object): Id {
    var ns := MetaString(doc, "namespace");
    Id(if ns == "" then DEFAULT_NAMESPACE else ns, MetaString(doc, "name"))
  }

  /** A document names the object that its metadata say, in the default namespace if none is given. */
  lemma DocIdNames(doc: Object)
    ensures var name := Walk(Map(doc), [Key("metadata"), Key("name")]);
            var ns := Walk(Map(doc), [Key("metadata"), Key("namespace")]);
            && DocId(doc).name == (if name.At? && name.v.Str? then name.v.s else "")
            && DocId(doc).ns == if ns.At? && ns.v.Str? && ns.v.s != "" then ns.v.s else "default"
  {
    WalkTwo(doc, "metadata", "name");
    WalkTwo(doc, "metadata", "namespace");
  }

  /** The request is about this one object, or about the accounts of its namespace. */
  predicate Concerns(call: Call, id: Id) {
    match call
    case Get(i, _) => i == id
    case Update(i, _, _, _, _) => i == id
    case Delete(i, _) => i == id
    case Create(i, _, _) => i == id
    case ListAccounts(ns, _) => ns == id.ns
    case DeleteAccount(ns, _) => ns == id.ns
  }

  /** What one cluster's turn did: its document, the requests made for it, and the verdict. */
  datatype Run = Run(doc: Object, calls: seq<Call>, ok: bool)

  predicate Succeeded(r: Run) { r.ok }

  function AllCalls(runs: seq<Run>): seq<Call> {
    if runs == [] then [] else AllCalls(runs[..|runs| - 1]) + runs[|runs| - 1].calls
  }

  /** The documents of the runs, in order. */
  function Docs(runs: seq<Run>): seq<Object> {
    if runs == [] then [] else Docs(runs[..|runs| - 1]) + [runs[|runs| - 1].doc]
  }

  lemma RunAppended(runs: seq<Run>, doc: Object, calls: seq<Call>, ok: bool, start: seq<Call>)
    ensures var more := runs + [Run(doc, calls, ok)];
            && start + AllCalls(more) == start + AllCalls(runs) + calls
            && Docs(more) == Docs(runs) + [doc]
            && Count(more, Succeeded) == Count(runs, Succeeded) + if ok then 1 else 0
  {
    var r := Run(doc, calls, ok);
    assert (runs + [r])[..|runs|] == runs;
    CountConcat(runs, [r], Succeeded);
    assert start + (AllCalls(runs) + calls) == start + AllCalls(runs) + calls;
  }

  // ---- Live migration of one cluster ----

  predicate HasPrefix(s: string, prefix: string) {
    |prefix| <= |s| && s[..|prefix|] == prefix
  }

  /** Left over from the old operator: named after the cluster's proxy, but not the account
      that the new operator owns. */
  predicate IsStaleAccount(cluster: string, account: string) {
    HasPrefix(account, cluster + "-oauth-proxy-") && account != cluster + "-oauth-proxy-sa"
  }

  function IsStaleFor(cluster: string): string -> bool { (account: string) => IsStaleAccount(cluster, account) }

  function DeletionIn(ns: string): string -> Call { (account: string) => DeleteAccount(ns, account) }

  /** The cleanup, given what the listing answered: every stale account that was listed is
      deleted, in order, and no other. */
  function CleanupCalls(id: Id, listed: seq<string>): seq<Call> {
    [ListAccounts(id.ns, listed)] + MapSeq(Filter(listed, IsStaleFor(id.name)), DeletionIn(id.ns))
  }

  /** An accepted update overwrote nothing it had not seen: the document stored right before
      is the one that was fetched, and the one stored right after is its image. */
  ghost predicate NoLostUpdate(call: Call)
    requires call.Update?
  {
    && call.id in call.before
    && call.id in call.after
    && call.after == call.before[call.id := call.after[call.id]]
    && Strip(call.after[call.id]) == Process(Strip(call.before[call.id]))
    && TlsComponents(call.after[call.id]) == []
    && (IsClusterMigrated(call.after[call.id]) <==> IsAnnotated(Strip(call.before[call.id])))
  }

  lemma AcceptedLosesNothing(before: Store, id: Id, v: string)
    requires id in before && HasMeta(before[id])
    ensures var doc := Submission(before[id]);
            NoLostUpdate(Update(id, doc, before, AfterUpdate(before, id, doc, v), true))
  {
    StoredIsImage(before[id], v);
    MigratedAfterMigrationIff(before[id], v);
  }

  /** The requests of one live migration: a fetch, the account cleanup, and one update. */
  ghost predicate LiveRun(run: seq<Call>, id: Id, ok: bool) {
    && run != []
    && run[0].Get? && run[0].id == id
    && (!run[0].answer.Found? ==> |run| == 1 && !ok)
    && (run[0].answer.Found? ==>
          && |run| >= 3
          && run[1].ListAccounts? && run[1..|run| - 1] == CleanupCalls(id, run[1].names)
          && var last := run[|run| - 1];
             && last.Update? && last.id == id && last.ok == ok
             && last.doc == Submission(run[0].answer.doc)
             && (ok && VersionOf(run[0].answer.doc) != "" ==>
                 NoLostUpdate(last) && last.before[id] == run[0].answer.doc))
  }

  /** Deleted are exactly the listed accounts named after the cluster's proxy, but for the one that
      the new operator owns. */
  lemma CleanupDeletesIff(id: Id, listed: seq<string>, account: string)
    ensures DeleteAccount(id.ns, account) in CleanupCalls(id, listed)
            <==> account in listed && id.name + "-oauth-proxy-" <= account && account != id.name + "-oauth-proxy-sa"
    ensures forall call :: call in CleanupCalls(id, listed) ==>
              Concerns(call, id) && (call == ListAccounts(id.ns, listed) || call.DeleteAccount?)
  {
    DeletionsAre(Filter(listed, IsStaleFor(id.name)), id.ns, account);
    assert IsStaleFor(id.name)(account)
        <==> id.name + "-oauth-proxy-" <= account && account != id.name + "-oauth-proxy-sa";
  }

  lemma DeletionsAre(accounts: seq<string>, ns: string, account: string)
    ensures DeleteAccount(ns, account) in MapSeq(accounts, DeletionIn(ns)) <==> account in accounts
    ensures forall call :: call in MapSeq(accounts, DeletionIn(ns)) ==> call.DeleteAccount? && call.ns == ns
  {
    var deletions := MapSeq(accounts, DeletionIn(ns));
    forall i | 0 <= i < |accounts| ensures deletions[i] == DeleteAccount(ns, accounts[i]) {
    }
    if account in accounts {
      var i :| 0 <= i < |accounts| && accounts[i] == account;
      assert deletions[i] == DeleteAccount(ns, account);
    }
  }

  /** A live run touches nothing but its own cluster and the accounts next to it. */
  lemma LiveRunConcerns(run: seq<Call>, id: Id, ok: bool, i: nat)
    requires LiveRun(run, id, ok) && i < |run|
    ensures Concerns(run[i], id)
  {
    if 0 < i < |run| - 1 {
      assert run[i] == run[1..|run| - 1][i - 1];
      CleanupDeletesIff(id, run[1].names, "");
    }
  }

  lemma IsLiveRun(id: Id, latest: Object, listed: seq<string>, before: Store, after: Store, ok: bool)
    requires ok && VersionOf(latest) != "" ==>
               NoLostUpdate(Update(id, Submission(latest), before, after, ok)) && before[id] == latest
    ensures var update := Update(id, Submission(latest), before, after, ok);
            LiveRun([Get(id, Found(latest))] + CleanupCalls(id, listed) + [update], id, ok)
  {
    var cleanup := CleanupCalls(id, listed);
    var run := [Get(id, Found(latest))] + cleanup + [Update(id, Submission(latest), before, after, ok)];
    assert run[1] == cleanup[0] && run[1..|run| - 1] == cleanup;
  }

  method CleanupOldServiceAccounts(api: Server, id: Id) returns (ghost listed: seq<string>)
    modifies api`calls
    ensures api.calls == old(api.calls) + CleanupCalls(id, listed)
  {
    var accounts := api.ListServiceAccounts(id.ns);
    listed := accounts;
    ghost var deletions: seq<Call> := [];
    for i := 0 to |accounts|
      invariant api.calls == old(api.calls) + ([ListAccounts(id.ns, accounts)] + deletions)
      invariant deletions == MapSeq(Filter(accounts[..i], IsStaleFor(id.name)), DeletionIn(id.ns))
    {
      FilterPrefix(accounts, i, IsStaleFor(id.name));
      if IsStaleAccount(id.name, accounts[i]) {
        api.DeleteServiceAccount(id.ns, accounts[i]);
        MapSeqAppend(Filter(accounts[..i], IsStaleFor(id.name)), accounts[i], DeletionIn(id.ns));
        deletions := deletions + [DeleteAccount(id.ns, accounts[i])];
      }
    }
    assert accounts[..|accounts|] == accounts;
  }

  /** The update, given that `latest` is what a version of the object named. */
  method SubmitUpdate(api: Server, id: Id, latest: Object) returns (ok: bool, ghost before: Store, ghost after: Store)
    requires api.Valid()
    requires VersionOf(latest) != "" ==>
               (id, VersionOf(latest)) in api.history && api.history[(id, VersionOf(latest))] == latest
    modifies api
    ensures api.Valid() && api.calls == old(api.calls) + [Update(id, Submission(latest), before, after, ok)]
    ensures ok && VersionOf(latest) != "" ==>
              NoLostUpdate(Update(id, Submission(latest), before, after, ok)) && before[id] == latest
  {
    SubmissionMeta(latest);
    ok, before, after := api.UpdateObject(id, Submission(latest));
    if ok && VersionOf(latest) != "" {
      assert before[id] == latest;
      ghost var v :| after == AfterUpdate(before, id, Submission(latest), v);
      AcceptedLosesNothing(before, id, v);
    }
  }

  method MigrateSingleClusterLive(api: Server, id: Id) returns (ok: bool, ghost run: seq<Call>)
    requires api.Valid()
    modifies api
    ensures api.Valid() && api.calls == old(api.calls) + run
    ensures LiveRun(run, id, ok)
  {
    var answer := api.GetObject(id);
    run := [Get(id, answer)];
    if !answer.Found? {
      return false, run;
    }
    ghost var listed := CleanupOldServiceAccounts(api, id);
    ghost var before, after;
    ok, before, after := SubmitUpdate(api, id, answer.doc);
    ghost var update := Update(id, Submission(answer.doc), before, after, ok);
    Joined(old(api.calls), run, CleanupCalls(id, listed), [update]);
    run := run + CleanupCalls(id, listed) + [update];
    IsLiveRun(id, answer.doc, listed, before, after, ok);
  }

  // ---- The live run over all clusters ----

  datatype PostUpgradeResult = PostUpgradeResult(migrated: nat, skipped: nat, failed: nat)

  datatype Outcome<T> = Success(value: T) | Failure

  predicate NeedsWork(doc: Object) { !IsClusterMigrated(doc) }

  method AnalyzeClusters(clusters: seq<Object>) returns (toMigrate: seq<Object>, alreadyMigrated: seq<Object>)
    ensures toMigrate == Filter(clusters, NeedsWork)
    ensures alreadyMigrated == Filter(clusters, IsClusterMigrated)
  {
    toMigrate, alreadyMigrated := [], [];
    for i := 0 to |clusters|
      invariant toMigrate == Filter(clusters[..i], NeedsWork)
      invariant alreadyMigrated == Filter(clusters[..i], IsClusterMigrated)
    {
      FilterPrefix(clusters, i, NeedsWork);
      FilterPrefix(clusters, i, IsClusterMigrated);
      if IsClusterMigrated(clusters[i]) {
        alreadyMigrated := alreadyMigrated + [clusters[i]];
      } else {
        toMigrate := toMigrate + [clusters[i]];
      }
    }
    assert clusters[..|clusters|] == clusters;
  }

  /** The two halves of the analysis lose no cluster and duplicate none. */
  lemma {:induction false} AnalysisPartitions(clusters: seq<Object>)
    ensures multiset(Filter(clusters, NeedsWork)) + multiset(Filter(clusters, IsClusterMigrated)) == multiset(clusters)
    ensures |Filter(clusters, NeedsWork)| + |Filter(clusters, IsClusterMigrated)| == |clusters|
  {
    if clusters != [] {
      AnalysisPartitions(clusters[1..]);
      assert clusters == [clusters[0]] + clusters[1..];
    }
  }

  ghost predicate AllLive(runs: seq<Run>) {
    runs != [] ==>
      var last := runs[|runs| - 1];
      AllLive(runs[..|runs| - 1]) && LiveRun(last.calls, DocId(last.doc), last.ok)
  }

  /** Every request of a whole live migration is about the cluster whose turn it is. */
  lemma {:induction false} AllLiveConcern(runs: seq<Run>, k: nat, i: nat)
    requires AllLive(runs) && k < |runs| && i < |runs[k].calls|
    ensures Concerns(runs[k].calls[i], DocId(runs[k].doc))
  {
    if k < |runs| - 1 {
      assert runs[..|runs| - 1][k] == runs[k];
      AllLiveConcern(runs[..|runs| - 1], k, i);
    } else {
      LiveRunConcerns(runs[k].calls, DocId(runs[k].doc), runs[k].ok, i);
    }
  }

  lemma AllLiveAppended(runs: seq<Run>, doc: Object, calls: seq<Call>, ok: bool)
    requires AllLive(runs) && LiveRun(calls, DocId(doc), ok)
    ensures AllLive(runs + [Run(doc, calls, ok)])
  {
    assert (runs + [Run(doc, calls, ok)])[..|runs|] == runs;
  }

  /** One cluster's turn, given what the earlier turns did since the log was `start`. */
  method MigrateNext(api: Server, doc: Object, ghost start: seq<Call>, ghost earlier: seq<Run>)
    returns (ok: bool, ghost runs: seq<Run>)
    requires api.Valid() && AllLive(earlier) && api.calls == start + AllCalls(earlier)
    modifies api
    ensures api.Valid() && AllLive(runs) && api.calls == start + AllCalls(runs)
    ensures Docs(runs) == Docs(earlier) + [doc]
    ensures Count(runs, Succeeded) == Count(earlier, Succeeded) + if ok then 1 else 0
  {
    ghost var calls;
    ok, calls := MigrateSingleClusterLive(api, DocId(doc));
    RunAppended(earlier, doc, calls, ok, start);
    AllLiveAppended(earlier, doc, calls, ok);
    runs := earlier + [Run(doc, calls, ok)];
  }

  method ExecuteLiveMigration(api: Server, toMigrate: seq<Object>, dryRun: bool)
    returns (migrated: nat, failed: nat, ghost runs: seq<Run>)
    requires api.Valid()
    modifies api
    ensures api.Valid()
    ensures migrated + failed == |toMigrate|
    ensures dryRun ==> failed == 0 && api.calls == old(api.calls) && api.store == old(api.store)
    ensures !dryRun ==> api.calls == old(api.calls) + AllCalls(runs)
    ensures !dryRun ==> Docs(runs) == toMigrate && AllLive(runs) && migrated == Count(runs, Succeeded)
  {
    migrated, failed, runs := 0, 0, [];
    for i := 0 to |toMigrate|
      invariant api.Valid() && migrated + failed == i
      invariant dryRun ==> failed == 0 && api.calls == old(api.calls) && api.store == old(api.store)
      invariant !dryRun ==> api.calls == old(api.calls) + AllCalls(runs)
      invariant !dryRun ==> Docs(runs) == toMigrate[..i] && AllLive(runs) && migrated == Count(runs, Succeeded)
    {
      assert toMigrate[..i + 1] == toMigrate[..i] + [toMigrate[i]];
      if dryRun {
        migrated := migrated + 1;
        continue;
      }
      var ok: bool;
      ok, runs := MigrateNext(api, toMigrate[i], old(api.calls), runs);
      if ok {
        migrated := migrated + 1;
      } else {
        failed := failed + 1;
      }
    }
    assert toMigrate[..|toMigrate|] == toMigrate;
  }

  /** `fetched` is what listing the clusters answered, `confirmed` what the prompt answered. */
  method PostUpgradeLive(api: Server, clusterName: string, namespace: string, dryRun: bool, skipConfirm: bool,
                         fetched: Outcome<seq<Object>>, confirmed: bool)
    returns (result: Outcome<PostUpgradeResult>, ghost runs: seq<Run>)
    requires api.Valid()
    modifies api
    ensures api.Valid()
    ensures result.Failure? <==> (clusterName != "" && namespace == "") || fetched.Failure?
    ensures result.Failure? || dryRun ==> api.calls == old(api.calls) && api.store == old(api.store)
    ensures result.Success? ==>
              var r, work := result.value, Filter(fetched.value, NeedsWork);
              && r.skipped == |Filter(fetched.value, IsClusterMigrated)|
              && (dryRun ==> r.failed == 0)
              && (if dryRun || skipConfirm || confirmed
                  then r.migrated + r.skipped + r.failed == |fetched.value|
                  else r.migrated == r.failed == 0 && api.calls == old(api.calls))
              && (!dryRun && (skipConfirm || confirmed) ==>
                    && Docs(runs) == work && AllLive(runs)
                    && r.migrated == Count(runs, Succeeded)
                    && api.calls == old(api.calls) + AllCalls(runs))
  {
    runs := [];
    if clusterName != "" && namespace == "" {
      return Failure, runs;
    }
    if fetched.Failure? {
      return Failure, runs;
    }
    var clusters := fetched.value;
    if |clusters| == 0 {
      return Success(PostUpgradeResult(0, 0, 0)), runs;
    }
    var toMigrate, alreadyMigrated := AnalyzeClusters(clusters);
    AnalysisPartitions(clusters);
    if |toMigrate| == 0 {
      return Success(PostUpgradeResult(0, |alreadyMigrated|, 0)), runs;
    }
    if !(dryRun || skipConfirm || confirmed) {
      return Success(PostUpgradeResult(0, |alreadyMigrated|, 0)), runs;
    }
    var migrated, failed;
    migrated, failed, runs := ExecuteLiveMigration(api, toMigrate, dryRun);
    result := Success(PostUpgradeResult(migrated, |alreadyMigrated|, failed));
  }

  // ---- Restore from backup ----

  predicate IsGetOf(call: Call, id: Id) { call.Get? && call.id == id }

  /** The polls of a deletion wait: nothing but fetches of the one cluster, which all found
      it but perhaps the last, and at most as many as there are attempts. */
  predicate DeletionWait(run: seq<Call>, id: Id, deleted: bool) {
    && |run| <= DELETION_WAIT_MAX_ATTEMPTS
    && (forall i :: 0 <= i < |run| ==> IsGetOf(run[i], id))
    && (forall i :: 0 <= i < |run| - 1 ==> run[i].answer.Found?)
    && (deleted <==> run != [] && run[|run| - 1].answer.Missing?)
  }

  /** The context may be cancelled at each of the two selects of an attempt. */
  method WaitForDeletion(api: Server, id: Id) returns (deleted: bool, ghost run: seq<Call>)
    requires api.Valid()
    modifies api
    ensures api.Valid() && api.calls == old(api.calls) + run
    ensures DeletionWait(run, id, deleted)
  {
    run := [];
    for attempt := 0 to DELETION_WAIT_MAX_ATTEMPTS
      invariant api.Valid() && api.calls == old(api.calls) + run
      invariant |run| == attempt && DeletionWait(run, id, false)
      invariant forall i :: 0 <= i < |run| ==> run[i].answer.Found?
    {
      var cancelled: bool := *;
      if cancelled {
        return false, run;
      }
      var answer := api.GetObject(id);
      run := run + [Get(id, answer)];
      if answer.Missing? {
        return true, run;
      }
      if answer.Unavailable? {
        return false, run;
      }
      cancelled := *;
      if cancelled {
        return false, run;
      }
    }
    return false, run;
  }

  function RestoreImage(backup: Object): Object {
    SetMeta(SetMeta(KueueAnnotations.Remove(backup), "resourceVersion", ""), "uid", "")
  }

  /** What is created never names an old version or the uid of the deleted cluster. */
  lemma RestoreImageIsFresh(backup: Object)
    ensures VersionOf(RestoreImage(backup)) == "" && UidOf(RestoreImage(backup)) == ""
    ensures HasMeta(RestoreImage(backup)) ==>
              "resourceVersion" !in RestoreImage(backup)["metadata"].fields
              && "uid" !in RestoreImage(backup)["metadata"].fields
  {
  }

  predicate InVersionOrUid(path: seq<Edge>) {
    path != [] && (path[0] == Key("resourceVersion") || path[0] == Key("uid"))
  }

  function WithoutVersionAndUid(meta: Object): Object { meta - {"resourceVersion", "uid"} }

  lemma VersionAndUidGone(meta: Object)
    ensures DiffersBy(Map(meta), Map(WithoutVersionAndUid(meta)), InVersionOrUid)
  {
    forall path: seq<Edge>
      ensures Alike(Walk(Map(WithoutVersionAndUid(meta)), path),
                    if InVersionOrUid(path) then Nothing else Walk(Map(meta), path))
    {
      AlikeSelf(Walk(Map(meta), path));
    }
  }

  /** What is restored is the backup as it was, down to the last scalar, but for the Kueue
      annotations, the version and the uid. */
  lemma RestoreImageKeepsRest(backup: Object)
    ensures DiffersBy(Map(backup), Map(RestoreImage(backup)),
                      Either(KueueAnnotations.InKueue(), Under("metadata", InVersionOrUid)))
  {
    KueueAnnotations.RemovesExactlyKueueAnnotations(backup);
    var r := KueueAnnotations.Remove(backup);
    if HasMeta(r) {
      var meta := r["metadata"].fields;
      VersionAndUidGone(meta);
      assert meta - {"resourceVersion"} - {"uid"} == WithoutVersionAndUid(meta);
    }
    assert RestoreImage(backup) == UpdateMap(r, "metadata", WithoutVersionAndUid);
    UpdateMapDiffers(r, "metadata", WithoutVersionAndUid, InVersionOrUid);
    DiffersByBoth(Map(backup), Map(r), Map(RestoreImage(backup)),
                  KueueAnnotations.InKueue(), Under("metadata", InVersionOrUid));
  }

  lemma RemoveMetaKey(doc: Object, key: string)
    requires KueueAnnotations.Remove(doc) == doc && key != "annotations"
    ensures KueueAnnotations.Remove(SetMeta(doc, key, "")) == SetMeta(doc, key, "")
  {
    if HasMeta(doc) {
      var meta := doc["metadata"].fields;
      assert KueueAnnotations.Remove(doc)["metadata"] == Map(KueueAnnotations.FromMeta(meta));
      assert KueueAnnotations.FromMeta(meta - {key}) == KueueAnnotations.FromMeta(meta) - {key};
      var less := SetMeta(doc, key, "");
      assert less["metadata"] == Map(meta - {key});
      assert UpdateMap(less, "metadata", KueueAnnotations.FromMeta) == less;
      assert "spec" in doc && doc["spec"].Map? ==>
          KueueAnnotations.Remove(doc)["spec"] == Map(KueueAnnotations.FromSpec(doc["spec"].fields));
    }
  }

  /** The backup is cleaned in place: restoring it again creates the same document. */
  lemma RestoreImageIdempotent(backup: Object)
    ensures RestoreImage(RestoreImage(backup)) == RestoreImage(backup)
  {
    var r := KueueAnnotations.Remove(backup);
    KueueAnnotations.RemoveIdempotent(backup);
    RemoveMetaKey(r, "resourceVersion");
    RemoveMetaKey(SetMeta(r, "resourceVersion", ""), "uid");
    var x := RestoreImage(backup);
    assert KueueAnnotations.Remove(x) == x;
    if HasMeta(x) {
      var meta := x["metadata"].fields;
      assert meta - {"resourceVersion"} == meta && meta - {"uid"} == meta;
      assert x["metadata" := Map(meta)] == x;
    }
  }

  /** The requests of one restore: a fetch; a deletion and its wait if the fetch found the
      cluster; a creation if the cluster was last seen missing. */
  ghost predicate RestoreRun(run: seq<Call>, id: Id, backup: Object, ok: bool) {
    && run != [] && IsGetOf(run[0], id)
    && match run[0].answer
       case Unavailable => |run| == 1 && !ok
       case Missing => |run| == 2 && run[1] == Create(id, RestoreImage(backup), ok)
       case Found(_) =>
         && |run| >= 2
         && run[1].Delete? && run[1].id == id
         && (!run[1].ok ==> |run| == 2 && !ok)
         && (run[1].ok ==>
               || (DeletionWait(run[2..], id, false) && !ok)
               || (&& |run| >= 3
                   && DeletionWait(run[2..|run| - 1], id, true)
                   && run[|run| - 1] == Create(id, RestoreImage(backup), ok)))
  }

  method RestoreSingleCluster(api: Server, backup: Object, id: Id) returns (ok: bool, ghost run: seq<Call>)
    requires api.Valid()
    modifies api
    ensures api.Valid() && api.calls == old(api.calls) + run
    ensures RestoreRun(run, id, backup, ok)
  {
    var answer := api.GetObject(id);
    run := [Get(id, answer)];
    if answer.Unavailable? {
      return false, run;
    }
    if answer.Found? {
      var accepted := api.DeleteObject(id);
      run := run + [Delete(id, accepted)];
      if !accepted {
        return false, run;
      }
      var deleted: bool;
      ghost var polls;
      deleted, polls := WaitForDeletion(api, id);
      ghost var prefix := run;
      run := prefix + polls;
      assert run[2..] == polls;
      if !deleted {
        return false, run;
      }
      assert (run + [Create(id, RestoreImage(backup), true)])[2..|run|] == polls;
    }
    ghost var before := run;
    ok := api.CreateObject(id, RestoreImage(backup));
    run := before + [Create(id, RestoreImage(backup), ok)];
    assert answer.Found? ==> |before| >= 2 && run[2..|run| - 1] == before[2..];
  }

  // ---- What every restore run promises ----

  predicate IsDelete(call: Call) { call.Delete? }

  predicate IsGet(call: Call) { call.Get? }

  /** The most recent fetch before position `i` of a run, if any. */
  function LastGet(run: seq<Call>, i: nat): int
    requires i <= |run|
    ensures -1 <= LastGet(run, i) < i
    ensures LastGet(run, i) >= 0 ==> run[LastGet(run, i)].Get?
    ensures forall j :: LastGet(run, i) < j < i ==> !run[j].Get?
  {
    if i == 0 then -1 else if run[i - 1].Get? then i - 1 else LastGet(run, i - 1)
  }

  lemma {:induction false} NoDeleteInWait(run: seq<Call>, id: Id)
    requires forall i :: 0 <= i < |run| ==> IsGetOf(run[i], id)
    ensures Count(run, IsDelete) == 0
    ensures Count(run, IsGet) == |run|
  {
    if run != [] {
      assert IsGetOf(run[0], id);
      NoDeleteInWait(run[1..], id);
    }
  }

  /** A run made of a head (a fetch and perhaps a deletion), polls, and perhaps a creation. */
  ghost predicate Shaped(run: seq<Call>, id: Id, backup: Object, ok: bool, head: nat, last: nat) {
    && 1 <= head <= 2 && head <= last <= |run| <= last + 1 && last - head <= DELETION_WAIT_MAX_ATTEMPTS
    && run[0].Get? && run[0].id == id
    && (head == 2 ==> run[0].answer.Found? && run[1].Delete?)
    && (forall i :: head <= i < last ==> IsGetOf(run[i], id))
    && (|run| == last + 1 ==> run[last] == Create(id, RestoreImage(backup), ok) && run[last - 1] == Get(id, Missing))
    && (ok ==> |run| == last + 1)
  }

  lemma RestoreShape(run: seq<Call>, id: Id, backup: Object, ok: bool) returns (head: nat, last: nat)
    requires RestoreRun(run, id, backup, ok)
    ensures Shaped(run, id, backup, ok, head, last)
  {
    match run[0].answer
    case Unavailable => head, last := 1, 1;
    case Missing => head, last := 1, 1;
    case Found(_) =>
      head := 2;
      if !run[1].ok {
        last := 2;
      } else if DeletionWait(run[2..], id, false) && !ok {
        last := |run|;
        WaitIsGets(run, 2, |run|, id);
      } else {
        last := |run| - 1;
        assert DeletionWait(run[2..last], id, true);
        WaitIsGets(run, 2, last, id);
        assert run[last - 1] == run[2..last][|run[2..last]| - 1];
      }
  }

  lemma ShapedIsSafe(run: seq<Call>, id: Id, backup: Object, ok: bool, head: nat, last: nat, i: nat)
    requires Shaped(run, id, backup, ok, head, last) && i < |run|
    ensures run[i].Create? ==>
              LastGet(run, i) >= 0 && run[LastGet(run, i)] == Get(id, Missing)
                  && run[i] == Create(id, RestoreImage(backup), ok)
    ensures run[i].Delete? ==> i == 1 && run[0].Get? && run[0].answer.Found?
  {
    if run[i].Create? {
      assert !(head <= i < last);
    } else if run[i].Delete? {
      assert !(head <= i < last);
    }
  }

  lemma ShapedIsBounded(run: seq<Call>, id: Id, backup: Object, ok: bool, head: nat, last: nat)
    requires Shaped(run, id, backup, ok, head, last)
    ensures Count(run, IsDelete) <= 1
    ensures Count(run, IsGet) <= 1 + DELETION_WAIT_MAX_ATTEMPTS
  {
    RestoreCounts(run, head, last, IsDelete);
    RestoreCounts(run, head, last, IsGet);
    NoDeleteInWait(run[head..last], id);
  }

  /** A restore creates only what it last saw missing, and it deletes at most once, right
      after it saw the cluster exist. It fetches at most once more than it may poll, and it
      succeeds only through a creation. */
  lemma RestoreIsSafe(run: seq<Call>, id: Id, backup: Object, ok: bool)
    requires RestoreRun(run, id, backup, ok)
    ensures forall i :: 0 <= i < |run| && run[i].Create? ==>
              LastGet(run, i) >= 0 && run[LastGet(run, i)] == Get(id, Missing)
                  && run[i] == Create(id, RestoreImage(backup), ok)
    ensures forall i :: 0 <= i < |run| && run[i].Delete? ==> i == 1 && run[0].Get? && run[0].answer.Found?
    ensures Count(run, IsDelete) <= 1
    ensures Count(run, IsGet) <= 1 + DELETION_WAIT_MAX_ATTEMPTS
    ensures ok ==> run[|run| - 1].Create? && run[|run| - 1].ok
  {
    var head, last := RestoreShape(run, id, backup, ok);
    forall i | 0 <= i < |run|
      ensures run[i].Create? ==>
                LastGet(run, i) >= 0 && run[LastGet(run, i)] == Get(id, Missing)
                    && run[i] == Create(id, RestoreImage(backup), ok)
      ensures run[i].Delete? ==> i == 1 && run[0].Get? && run[0].answer.Found?
    {
      ShapedIsSafe(run, id, backup, ok, head, last, i);
    }
    ShapedIsBounded(run, id, backup, ok, head, last);
  }

  lemma RestoreCounts(run: seq<Call>, head: nat, last: nat, p: Call -> bool)
    requires 1 <= head <= 2 && head <= last <= |run| <= last + 1
    requires |run| == last + 1 ==> !p(run[last])
    requires p(run[0]) ==> (head == 2 ==> !p(run[1]))
    ensures Count(run, p) <= 1 + Count(run[head..last], p)
  {
    assert run == run[..head] + run[head..last] + run[last..];
    CountConcat(run[..head], run[head..last], p);
    CountConcat(run[..head] + run[head..last], run[last..], p);
    assert run[..head] == if head == 1 then [run[0]] else [run[0], run[1]];
    assert run[last..] == if |run| == last then [] else [run[last]];
    CountConcat([run[0]], run[1..head], p);
    assert [run[0]] + run[1..head] == run[..head];
    assert run[1..head] == if head == 1 then [] else [run[1]];
  }

  lemma WaitIsGets(run: seq<Call>, from: nat, to: nat, id: Id)
    requires from <= to <= |run|
    requires forall i :: 0 <= i < to - from ==> IsGetOf(run[from..to][i], id)
    ensures forall i :: from <= i < to ==> IsGetOf(run[i], id)
  {
    forall i | from <= i < to ensures IsGetOf(run[i], id) {
      assert run[i] == run[from..to][i - from];
    }
  }

  /** A restore run touches nothing but its own cluster, and what it creates is the backup. */
  lemma RestoreRunConcerns(run: seq<Call>, id: Id, backup: Object, ok: bool, i: nat)
    requires RestoreRun(run, id, backup, ok) && i < |run|
    ensures Concerns(run[i], id)
    ensures run[i].Create? ==>
              DiffersBy(Map(backup), Map(run[i].doc),
                        Either(KueueAnnotations.InKueue(), Under("metadata", InVersionOrUid)))
  {
    RestoreImageKeepsRest(backup);
    var head, last := RestoreShape(run, id, backup, ok);
    if head <= i < last {
      assert IsGetOf(run[i], id);
    }
  }

  ghost predicate AllRestores(runs: seq<Run>) {
    runs != [] ==>
      var last := runs[|runs| - 1];
      AllRestores(runs[..|runs| - 1]) && RestoreRun(last.calls, DocId(last.doc), last.doc, last.ok)
  }

  /** Every request of a whole restore is about the cluster whose turn it is. */
  lemma {:induction false} AllRestoresConcern(runs: seq<Run>, k: nat, i: nat)
    requires AllRestores(runs) && k < |runs| && i < |runs[k].calls|
    ensures Concerns(runs[k].calls[i], DocId(runs[k].doc))
  {
    if k < |runs| - 1 {
      assert runs[..|runs| - 1][k] == runs[k];
      AllRestoresConcern(runs[..|runs| - 1], k, i);
    } else {
      RestoreRunConcerns(runs[k].calls, DocId(runs[k].doc), runs[k].doc, runs[k].ok, i);
    }
  }

  lemma AllRestoresAppended(runs: seq<Run>, doc: Object, calls: seq<Call>, ok: bool)
    requires AllRestores(runs) && RestoreRun(calls, DocId(doc), doc, ok)
    ensures AllRestores(runs + [Run(doc, calls, ok)])
  {
    assert (runs + [Run(doc, calls, ok)])[..|runs|] == runs;
  }

  /** One cluster's turn, given what the earlier turns did since the log was `start`. */
  method RestoreNext(api: Server, doc: Object, ghost start: seq<Call>, ghost earlier: seq<Run>)
    returns (ok: bool, ghost runs: seq<Run>)
    requires api.Valid() && AllRestores(earlier) && api.calls == start + AllCalls(earlier)
    modifies api
    ensures api.Valid() && AllRestores(runs) && api.calls == start + AllCalls(runs)
    ensures Docs(runs) == Docs(earlier) + [doc]
    ensures Count(runs, Succeeded) == Count(earlier, Succeeded) + if ok then 1 else 0
  {
    ghost var calls;
    ok, calls := RestoreSingleCluster(api, doc, DocId(doc));
    RunAppended(earlier, doc, calls, ok, start);
    AllRestoresAppended(earlier, doc, calls, ok);
    runs := earlier + [Run(doc, calls, ok)];
  }

  method ExecuteBackupRestore(api: Server, backups: seq<Object>, dryRun: bool)
    returns (migrated: nat, failed: nat, ghost runs: seq<Run>)
    requires api.Valid()
    modifies api
    ensures api.Valid() && migrated + failed == |backups|
    ensures dryRun ==> failed == 0 && api.calls == old(api.calls) && api.store == old(api.store)
    ensures !dryRun ==> api.calls == old(api.calls) + AllCalls(runs)
    ensures !dryRun ==> Docs(runs) == backups && AllRestores(runs) && migrated == Count(runs, Succeeded)
  {
    migrated, failed, runs := 0, 0, [];
    for i := 0 to |backups|
      invariant api.Valid() && migrated + failed == i
      invariant dryRun ==> failed == 0 && api.calls == old(api.calls) && api.store == old(api.store)
      invariant !dryRun ==> api.calls == old(api.calls) + AllCalls(runs)
      invariant !dryRun ==> Docs(runs) == backups[..i] && AllRestores(runs) && migrated == Count(runs, Succeeded)
    {
      assert backups[..i + 1] == backups[..i] + [backups[i]];
      if dryRun {
        migrated := migrated + 1;
        continue;
      }
      var ok: bool;
      ok, runs := RestoreNext(api, backups[i], old(api.calls), runs);
      if ok {
        migrated := migrated + 1;
      } else {
        failed := failed + 1;
      }
    }
    assert backups[..|backups|] == backups;
  }
}
