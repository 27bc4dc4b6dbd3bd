# Verification of odh-cli

This project models the parts of odh-cli whose correctness depends on many steps or on many
functions at once, and proves what they promise, for all inputs, all runs and all schedules:

- **Backup** (`Pipeline`, `PipelineTheorems`, `BackupWriter`): one producer, a pool of workers and
  one writer, joined by two bounded channels and one cancellation, as a transition system. Every
  interleaving keeps every workload in exactly one place, never sends on a closed channel, never
  gets stuck and ends; the outcome does not depend on the schedule.
- **RayCluster migration** (`Json`, `RayRewrite`, `StripTheorems`, `ProcessTheorems`,
  `DetectorTheorems`, `FrameTheorems`, `CommutationTheorems`, `PodSpecTheorems`, `KueueAnnotations`,
  `Unstructured`): the two rewrites of a cluster document and the independent detector, as functions
  on JSON trees and as methods that rewrite a document step by step. Completeness, idempotence,
  commutation, frame.
- **Migration protocols** (`ApiServer`, `MigrateTheorems`, `Migrate`): live migration and restore
  from backup, run against a server that other writers use at the same time.
- **Dependency graph** (`DependencyGraph`, `Strings`): depth-first search over a possibly cyclic
  manifest computes exact reachability; the "required by" view is the exact inverse of the edges.
- **Watch and events** (`Watch`, `LabelFetch`, `EventFilter`): the polling loop as a state machine,
  and the parallel cached label lookup against looking up every event's own object.
- **Installer** (`InstallChecks`, `Install`): concurrency-limited checks, creation in order, parallel
  waiting, read off the log of what the cluster was asked.
- **Step recorder** (`StepTrees`, `Recorder`, `RecorderRuns`, `BuiltResults`): recorders on the heap
  with parent links always show one ordered tree; any sequence of calls builds the tree that the same
  calls make of an abstract tree.

`Sequences`, `Optional`, `Runs` and `Paths` hold what several of them use. `dafny verify dfyconfig.toml`
checks the whole project.

## How the model is set up

- A goroutine's steps are steps of a transition system, or of a scheduler that may pick any
  goroutine that can run. Cancellation, API failures and other writers are nondeterministic.
- Loops over Go maps pick the next key arbitrarily, so what is proved holds for every order.
- The API server is a store of documents. Other writers may change it in any way before every
  request, except that a version of an object names one document for ever. The server refuses an
  update whose non-empty resource version or uid differs from the stored one, and keeps the version
  on an update that changes nothing.
- The helpers of apimachinery's `unstructured` package are not part of the repository. They are
  modelled by their documented behaviour; `Json.UpdateMap`, `Json.UpdateList` and `ApiServer.SetMeta`
  state it. A nil map or slice and an empty one are one value: an emptied `containers` or `volumes`
  list stays as an empty list, and a worker group that is not a map becomes an empty map.

## What the code does not promise

- The migration never sets the secure-network annotation. After it succeeded the cluster counts as
  migrated if and only if the fetched document was annotated once its autogenerated keys are stripped;
  every other cluster still counts as work to do (`MigrateTheorems.MigratedAfterMigrationIff`,
  `MigrateTheorems.UnannotatedExample`, `MigrateTheorems.AnnotationUnhiddenExample`).
- The detector does not look at mounts, nor at empty lists. A cluster that counts as migrated and is
  skipped is left alone by the rewrite if and only if it is tidy (`DetectorTheorems.SkippedUnchangedIff`,
  `DetectorTheorems.SkippedUntidyExample`).
- A built result is not a snapshot: a detail added later to one of its steps shows in it
  (`BuiltResults.CallShownIff`).
- `proxy-tls-secret` is removed from the volumes but not from the mounts. Mounts that named a volume
  still do after the rewrite if and only if no kept container mounts it
  (`PodSpecTheorems.MountsStayResolvedIff`, `PodSpecTheorems.DanglingMountExample`).
- Stripping does not look into a list directly inside a list. It removes every autogenerated key if
  and only if none hides there (`StripTheorems.StripCleansIff`, `StripTheorems.NestedListsAreKept`).
- An update is guarded against other writers if and only if the fetched document had a version
  (`MigrateTheorems.GuardedIffVersioned`).
- The cache key of the event filter is not injective when a namespace or a kind contains a slash
  (`EventFilter.CacheKeyCollision`). The cached filter is the direct one, whatever the API answers, if
  and only if events that share a key are about one object or about kinds that nobody looks up
  (`EventFilter.AlwaysNaiveIffKeysTellApart`, `EventFilter.CollidingPodsExample`). A cluster refuses
  namespaces and object names with a slash, and then keys agree (`EventFilter.RealApiAgrees`).
- The cap on the watch backoff never takes effect (`Watch.WatchState.HandleError`).

## Model

| member | source | states |
|---|---|---|
| PipelineTheorems.StepKeepsInv | pkg/backup/command.go:188-226 | Every step of every goroutine keeps the invariant: each workload sent so far is in exactly one of the two channels, a worker's hands, the dropped, the abandoned and the written, and no other is anywhere. |
| PipelineTheorems.RunKeepsInv | pkg/backup/command.go:188-226 | That invariant holds in every state of every interleaving. |
| PipelineTheorems.NoSendOnClosedChannel | pkg/backup/pipeline/resolver.go:24-75 | Once a channel is closed no goroutine is left that could send on it: the work channel is closed after the producer returned, the resolved channel after every worker did. |
| PipelineTheorems.NeverStuck | pkg/backup/command.go:188-226 | Until all stages have returned some stage can step, without help from a cancellation and also after one. |
| PipelineTheorems.RunsAreBounded | pkg/backup/pipeline/resolver.go:46-75 | No interleaving takes more than five steps per workload, one per worker, and six. |
| PipelineTheorems.DeliveredAtMostOnce | pkg/backup/pipeline/writer.go:26-45 | In every state the writer has taken each workload at most once, and only workloads whose dependencies resolve. |
| PipelineTheorems.DeliveredExactlyOnce | pkg/backup/command.go:188-226 | A finished run that was not cancelled has handed the writer each resolvable workload exactly once and dropped exactly the others. |
| PipelineTheorems.OnlyOutsideCancels | pkg/backup/command.go:188-226 | If the listing works and nobody cancels from outside, no state of any run is cancelled: no stage fails of itself. |
| PipelineTheorems.DeliveredUnlessDisturbed | pkg/backup/command.go:188-226 | In terms of the environment alone: if the listing works and nobody cancels from outside, every finished run has handed the writer each resolvable workload exactly once and dropped exactly the others. |
| PipelineTheorems.FailedListingSendsNothing | pkg/backup/pipeline/discovery.go:21-44 | If the listing fails, nothing is ever sent, dropped or written in any run, and every finished run has the producer's error and is cancelled. |
| PipelineTheorems.CancelledRunAccounts | pkg/backup/pipeline/discovery.go:21-44 | A finished run, cancelled or not, accounts for every workload sent: written, dropped, given up by a stopping worker or left in a channel, in exactly one of these. |
| PipelineTheorems.RunPipeline | pkg/backup/command.go:188-226 | Every schedule terminates with all goroutines returned; without cancellation the writer has each resolvable workload once. |
| BackupWriter.WriteWorkloadWithDeps | pkg/backup/pipeline/writer.go:48-103 | Writes the workload and stops with an error if that fails; else it tries the dependencies at exactly the positions of the fetched ones, in order, whatever fails. A dry run writes nothing and announces the workload and exactly its fetched dependencies, in order. |
| BackupWriter.ListedIff | pkg/backup/pipeline/writer.go:59-71 | Such a list holds a resource iff it is the workload's own or a fetched dependency's. |
| BackupWriter.BackupHoldsExactly | pkg/backup/command.go:188-226 | A finished uncancelled backup attempted to write a resource iff it belongs to a resolvable workload, or to a fetched dependency of one that could be written. |
| BackupWriter.WritesOfPermutation | pkg/backup/pipeline/writer.go:26-45 | How often each resource is written does not depend on the order in which workloads reach the writer. |
| BackupWriter.BackupIsScheduleIndependent | pkg/backup/command.go:188-226 | Two uncancelled backups of one listing attempt the same writes equally often, whatever their numbers of workers and their interleavings. |
| StripTheorems.StripRemovesOnlyAutogenerated | pkg/migrate/raycluster/process.go:11-29 | For every JSON tree and every path in it, lists in lists included: what lies behind an autogenerated key reached by map and map-in-list edges is gone, and everything else is as before: equal scalars, lists of equal length, maps as maps. |
| StripTheorems.StripRemovesExactlyAutogenerated | pkg/migrate/raycluster/process.go:11-29 | Along map and map-in-list edges, a path survives iff it avoids the autogenerated keys, and ends at the stripped image of what it ended at. |
| StripTheorems.NoAutogeneratedKeyReachable | pkg/migrate/raycluster/process.go:11-29 | No autogenerated key is reachable after stripping. |
| StripTheorems.StripCleansIff | pkg/migrate/raycluster/process.go:11-29 | For every JSON tree, stripping leaves no autogenerated key anywhere iff, below the kept keys, no list holds one inside an entry that is not a map. |
| StripTheorems.NestedListsAreKept | pkg/migrate/raycluster/process.go:21-26 | A document for which that condition fails: a map in a list in a list keeps its key. |
| StripTheorems.StripIdempotent | pkg/migrate/raycluster/process.go:11-29 | Stripping twice is stripping once, for every JSON tree. |
| ProcessTheorems.ProcessIsComplete | pkg/migrate/raycluster/process.go:132-157 | For every document the independent detector finds nothing after the rewrite. |
| FrameTheorems.ProcessTouchesOnly | pkg/migrate/raycluster/process.go:240-268 | For every document and every path in it: what is neither the head's enableIngress, nor containers, init containers, volumes or service account of a group's pod spec, nor a worker group that is not a map, is after the rewrite as it was before. |
| FrameTheorems.ProcessRewrites | pkg/migrate/raycluster/process.go:240-268 | What happens to those parts: an enabled enableIngress becomes false and any other value stays; the pod specs of the head and of every worker group are rewritten; the worker groups stay in number and order, and one that is not a map becomes an empty map. |
| DetectorTheorems.DetectedIff | pkg/migrate/raycluster/process.go:132-157 | The detector reports something iff the head or a worker group has a sidecar, a TLS variable, a certificate init container or a TLS volume of the tables, or the head has ingress enabled. |
| DetectorTheorems.PodSpecFoundIff | pkg/migrate/raycluster/process.go:85-128 | The same for one pod spec: the check reports something iff a container, variable, init container or volume of the tables occurs. |
| DetectorTheorems.ReportedIff | pkg/migrate/raycluster/process.go:85-157 | The report names exactly what there is, group by group: every sidecar, certificate init container and TLS volume, of each container's environment the first TLS variable, and an enabled ingress. |
| DetectorTheorems.AnnotatedIff | pkg/migrate/raycluster/process.go:272-273 | A cluster reads as annotated iff the path metadata.annotations.odh.ray.io/secure-trusted-network leads to "true" and no annotation is anything but a string or null. |
| DetectorTheorems.StatusIff | pkg/migrate/raycluster/process.go:271-308 | The four verdicts, by annotation and by whether there is something to remove. |
| DetectorTheorems.NothingToDoIff | pkg/migrate/raycluster/process.go:240-268 | The rewrite leaves a document as it is iff the detector finds nothing and the document is tidy: no mount of the tables, no empty list of variables, mounts or init containers, and only maps as worker groups. |
| DetectorTheorems.SkippedUnchangedIff | pkg/migrate/raycluster/process.go:271-308 | A cluster that counts as migrated, and is skipped, is one that the rewrite would leave alone iff it is tidy. |
| DetectorTheorems.SkippedUntidyExample | pkg/migrate/raycluster/process.go:271-308 | An annotated cluster whose container mounts ca-vol: it counts as migrated, and the rewrite would change it. |
| ProcessTheorems.MigratedAfterProcessIffAnnotated | pkg/migrate/raycluster/process.go:271-308 | A rewritten cluster counts as migrated iff it carried the secure-network annotation "true"; otherwise it is reported as needing the annotation only. |
| ProcessTheorems.ProcessIdempotent | pkg/migrate/raycluster/process.go:240-268 | Rewriting twice is rewriting once, for every JSON tree. |
| ProcessTheorems.CleanPodSpecPassesCheck | pkg/migrate/raycluster/process.go:85-128 | The pod-spec check finds nothing in a rewritten pod spec, for the head and for every worker group. |
| ProcessTheorems.PodSpecLists | pkg/migrate/raycluster/process.go:192-237 | The pod-spec rewrite touches four keys and leaves all other fields unchanged. |
| PodSpecTheorems.PodSpecKeys | pkg/migrate/raycluster/process.go:192-237 | Which of the four keys remain: the service account goes iff some container is called oauth-proxy, an emptied initContainers list goes with its key, containers and volumes stay, and what is not a list is left alone. |
| CommutationTheorems.ProcessCommutesWithStrip | pkg/migrate/raycluster/process.go:240-268 | The two rewrites can be done in either order, for every JSON tree. |
| CommutationTheorems.MigrationImageIdempotent | pkg/migrate/raycluster/migrate.go:349-351 | Migrating the image of a migration changes nothing. |
| PodSpecTheorems.PodSpecListsAreSublists | pkg/migrate/raycluster/process.go:192-237 | Containers, init containers and volumes become the order-preserving sublists of exactly the positions whose names are not on the removal tables. |
| PodSpecTheorems.ContainerFrame | pkg/migrate/raycluster/process.go:159-190 | A kept container changes in env and volumeMounts alone, which become the sublists of exactly the other positions; an emptied list goes with its key. |
| PodSpecTheorems.MountsStayResolvedIff | pkg/migrate/raycluster/constants.go:51-62 | If every container mount names a volume before the rewrite, then every one does after it iff no kept container mounts proxy-tls-secret. |
| PodSpecTheorems.DanglingMountExample | pkg/migrate/raycluster/constants.go:51-62 | A pod spec with resolved mounts one of which dangles after the rewrite. |
| KueueAnnotations.RemovesExactlyKueueAnnotations | pkg/migrate/raycluster/process.go:34-83 | For every document and every path in it: the two Kueue annotations of the cluster, of the head template and of every worker template are gone, and whatever any other path leads to is as before. |
| KueueAnnotations.RemoveIdempotent | pkg/migrate/raycluster/process.go:34-83 | Removing them twice is removing them once. |
| Unstructured.StripInPlace | pkg/migrate/raycluster/process.go:11-29 | Deleting keys one by one, in any order of map iteration, computes the strip function: autogenerated keys go, everything else stays as it was. |
| Unstructured.CleanContainerTLSComponents | pkg/migrate/raycluster/process.go:159-190 | The step-by-step container rewrite computes the container function. |
| Unstructured.CleanPodSpecTLSComponents | pkg/migrate/raycluster/process.go:192-237 | The step-by-step pod-spec rewrite computes the pod-spec function. |
| Unstructured.CheckPodSpecForTLSOAuth | pkg/migrate/raycluster/process.go:85-128 | The scanning loops list exactly the components of the specification, in order, at most one TLS variable per container; the list is empty iff none of what the tables name occurs. |
| Unstructured.RayCluster.RemoveAutogeneratedFields | pkg/migrate/raycluster/process.go:11-29 | The stored document loses exactly what lies behind the autogenerated keys, and keeps everything else down to the last scalar. |
| Unstructured.RayCluster.ProcessRayClusterYAML | pkg/migrate/raycluster/process.go:240-268 | The stored document becomes its rewritten image; the detector finds nothing in it, rewriting it again changes nothing, and a document without a spec map is not touched. |
| Unstructured.RayCluster.HasTLSOAuthComponents | pkg/migrate/raycluster/process.go:132-157 | Answers yes iff one of the things that the tables name occurs in the head or in a worker group, or ingress is enabled; lists the components found. |
| MigrateTheorems.SubmissionMeta | pkg/migrate/raycluster/migrate.go:349-357 | What a live migration submits carries exactly the version and the uid that were fetched, and outside of metadata is the image of the fetched document. |
| MigrateTheorems.StoredIsImage | pkg/migrate/raycluster/migrate.go:342-366 | What the server stores after an accepted submission is, up to autogenerated fields, the strip-then-process image of the fetched document, with nothing left for the detector. |
| MigrateTheorems.MigrationKeepsRest | pkg/migrate/raycluster/migrate.go:342-366 | Every path of the fetched document that is neither autogenerated nor touched by the rewrite leads to the same in the stored one, unless it is autogenerated there. |
| MigrateTheorems.GuardedIffVersioned | pkg/migrate/raycluster/migrate.go:352-357 | The server compares versions for the migration iff the fetched document had one. |
| MigrateTheorems.MigratedAfterMigrationIff | pkg/migrate/raycluster/migrate.go:342-366 | What the server stores after an accepted migration counts as migrated iff the fetched document, once stripped, carried the secure-network annotation "true". |
| MigrateTheorems.AnnotatedAfterStrip | pkg/migrate/raycluster/process.go:271-273 | A document that was annotated is still annotated once stripped. |
| MigrateTheorems.AnnotationUnhiddenExample | pkg/migrate/raycluster/process.go:271-273 | A document that does not read as annotated, because another annotation is a number, and counts as migrated after its migration. |
| MigrateTheorems.UnannotatedExample | pkg/migrate/raycluster/process.go:271-308 | A document with empty metadata needs the annotation, and counts as work to do, after its migration as before. |
| Migrate.CleanupOldServiceAccounts | pkg/migrate/raycluster/migrate.go:383-397 | Lists the accounts of the namespace, and deletes the stale ones of those listed, in order. |
| Migrate.CleanupDeletesIff | pkg/migrate/raycluster/migrate.go:388-393 | An account is deleted iff it was listed, its name starts with the cluster's name and -oauth-proxy-, and it is not the one ending in -oauth-proxy-sa; nothing else is requested. |
| Migrate.DocIdNames | pkg/migrate/raycluster/migrate.go:311-330 | The object worked on is the one that the document's metadata name, in the namespace default if they name none. |
| Migrate.AllLiveConcern | pkg/migrate/raycluster/migrate.go:311-340 | Every request of a whole live migration is about the cluster whose turn it is, or about the accounts of its namespace. |
| Migrate.MigrateSingleClusterLive | pkg/migrate/raycluster/migrate.go:342-381 | One fetch, the account cleanup, one update. No lost update: if it succeeds for a versioned document, the document stored right before it is the fetched one, the one stored right after it is its image and counts as migrated iff the stripped document was annotated, and no other object changed. |
| Migrate.AnalyzeClusters | pkg/migrate/raycluster/migrate.go:246-269 | Splits the clusters into those to migrate and those migrated, each in the order fetched. |
| Migrate.AnalysisPartitions | pkg/migrate/raycluster/migrate.go:246-269 | The two halves together are the fetched clusters, none lost and none twice. |
| Migrate.ExecuteLiveMigration | pkg/migrate/raycluster/migrate.go:311-340 | Every cluster is counted once, as migrated iff its run succeeded; the runs are live runs of exactly these clusters in order; a dry run makes no request and counts no failure. |
| Migrate.PostUpgradeLive | pkg/migrate/raycluster/migrate.go:177-233 | A run that passes confirmation ends with migrated + skipped + failed equal to the number fetched, and works on exactly the clusters that need it; a dry run or a declined one makes no request. |
| Migrate.WaitForDeletion | pkg/migrate/raycluster/migrate.go:46-71 | At most 60 fetches of the one cluster; reports a deletion iff the last one answered NotFound. |
| Migrate.RestoreSingleCluster | pkg/migrate/raycluster/migrate.go:633-671 | Every run against every server is a fetch; then, if the cluster exists, a deletion and its wait; then a creation of the cleaned backup if the cluster was last seen missing. |
| Migrate.RestoreImageKeepsRest | pkg/migrate/raycluster/migrate.go:650-654 | What is created is the backup, path by path and down to the last scalar, without exactly the Kueue annotations, the version and the uid. |
| Migrate.RestoreRunConcerns | pkg/migrate/raycluster/migrate.go:633-671 | Every request of a restore is about its own cluster, and whatever it creates is the backup in that sense. |
| Migrate.AllRestoresConcern | pkg/migrate/raycluster/migrate.go:600-631 | Every request of a whole restore is about the cluster whose turn it is. |
| Migrate.RestoreImageIsFresh | pkg/migrate/raycluster/migrate.go:652-654 | What is created carries neither a version nor a uid. |
| Migrate.RestoreImageIdempotent | pkg/migrate/raycluster/migrate.go:652-654 | The backup is cleaned in place: restoring it again creates the same document. |
| Migrate.RestoreIsSafe | pkg/migrate/raycluster/migrate.go:633-656 | Create is issued only when the most recent Get answered NotFound, Delete at most once and only right after the cluster was seen, at most 61 Gets in all; success only through a successful creation. |
| Migrate.ExecuteBackupRestore | pkg/migrate/raycluster/migrate.go:600-631 | Every backup is counted once, as migrated iff its restore succeeded; a dry run makes no request and counts no failure. |
| DependencyGraph.ClosedHoldsPath | pkg/deps/graph.go:150-167 | A path that avoids a set of names cannot leave a superset of it that is closed outside of it. |
| DependencyGraph.CollectTransitiveDeps | pkg/deps/graph.go:150-167 | Terminates on every finite graph, cyclic or not, and marks exactly what the name reaches over enabled edges by paths that avoid the names marked before, names missing from the manifest included. |
| DependencyGraph.BuildDepMap | pkg/deps/graph.go:127-147 | Lists for every dependency the sorted display names of exactly what it reaches, itself excluded. |
| DependencyGraph.EdgeIff | pkg/deps/manifest.go:266-275 | An edge is there iff the manifest lists it with true, "true" or "auto". |
| Strings.LeqIff | pkg/deps/graph.go:143 | Sorted means lexicographic: a prefix comes first, else the smaller character at the first difference decides. |
| DependencyGraph.ListingIsUnique | pkg/deps/graph.go:134-143 | Such a listing is unique, so it does not depend on the order of map iteration. |
| DependencyGraph.ListingShowsIff | pkg/deps/graph.go:134-143 | Listed is exactly what the reached dependencies are called: by the display name if the table has one, else by the own name. |
| DependencyGraph.BuildRequiredByMap | pkg/deps/manifest.go:225-261 | The exact inverse of the enabled edges of components and dependencies: strictly sorted lists that contain a display name iff some owner shown by that name has an enabled edge to the key. |
| DependencyGraph.RequiredByIff | pkg/deps/manifest.go:225-261 | A key lists a name iff some component or dependency with an edge to the key is called so: by its display name if the table has one, else by its own. |
| DependencyGraph.EdgeShowsInBothViews | pkg/deps/manifest.go:225-261 | Every enabled edge between two different dependencies shows in the dependency map and in the required-by map. |
| Watch.WatchState.HandleError | pkg/cmd/watch.go:156-179 | Keeps fewer than five errors and a backoff of 2^errors seconds; sleeps the old backoff; stops at once on an unrecoverable error, and with the maximum reached exactly at the fifth. |
| Watch.WatchState.Reset | pkg/cmd/watch.go:181-184 | Errors and backoff return to their start. |
| Watch.Loop | pkg/cmd/watch.go:120-146 | The loop stops at the first event whose history has a verdict, with that verdict; it emitted the successful snapshots with adjacent duplicates collapsed and slept the sleeps of that history. |
| Watch.RunWatch | pkg/cmd/watch.go:92-147 | Rejects intervals outside one second to five minutes, fails on a failed first poll, emits the first sample, then runs the loop. |
| Watch.SuccessesAreTheGoodPolls | pkg/cmd/watch.go:124-134 | What counts as a success is the first sample and then the samples of exactly the polls that succeeded, in order. |
| Watch.TrailingErrorsAreTheLast | pkg/cmd/watch.go:161-164 | A failure streak is made of the failed polls at the end of a history, all of them. |
| Watch.EndsBecause | pkg/cmd/watch.go:121-146 | Which event ends the loop and how: the end of the context or a sleep cut short (without error), a failure that cannot be cured, or an emission that fails. |
| Watch.NothingEndedBefore | pkg/cmd/watch.go:121-146 | No event that ends the loop comes before its last one. |
| Watch.CollapseIsTheChanges | pkg/cmd/watch.go:136-145 | What is emitted is exactly the samples at which the snapshot changed, in order. |
| Watch.StreamIsCurrent | pkg/cmd/watch.go:136-145 | The last sample emitted shows the last successful snapshot, and neighbours in the stream differ. |
| Watch.FailuresAreInvisible | pkg/cmd/watch.go:126-132 | However failed polls are interleaved, the successful snapshots, and with them the emitted stream, are what they would be without them. |
| Watch.StreakIsTheEnd | pkg/cmd/watch.go:156-179 | The sleeps of a failure streak are the last ones that the loop slept. |
| Watch.StreakIsBounded | pkg/cmd/watch.go:156-179 | While the loop runs a failure streak is shorter than five and its sleeps add up to 2^failures - 1 seconds, at most 15. |
| Watch.StreakSleepsAtMost15 | pkg/cmd/watch.go:156-179 | However the loop ends, the sleeps of its last failure streak add up to 15 seconds at most. |
| Watch.GivesUpAtFifthFailure | pkg/cmd/watch.go:161-164 | The loop stops with the maximum of errors iff the last event was the fifth recoverable failure in a row. |
| LabelFetch.RunKeepsInv | pkg/events/filter.go:141-195 | In every state of every interleaving each lookup fed is in one place, has been asked once if it got that far, and the cache is what the collected answers make it. |
| LabelFetch.SendsNeverBlock | pkg/events/filter.go:151-173 | The feeder and the workers always find room to send, also after the collector returned on an error. |
| LabelFetch.SomeStep | pkg/events/filter.go:141-195 | Until everything has returned some goroutine can step. |
| LabelFetch.RunsAreBounded | pkg/events/filter.go:141-195 | No interleaving takes more than five steps per lookup, one per worker, and three. |
| LabelFetch.AtMostTenAtOnce | pkg/events/filter.go:95-166 | In no state of any run are more than ten lookups under way. |
| LabelFetch.AskedAtMostOnce | pkg/events/filter.go:158-166 | In every state of every run no lookup has been sent to the API twice. |
| LabelFetch.FetchOutcome | pkg/events/filter.go:141-195 | A finished fetch fails iff some lookup fails; every lookup was asked exactly once; on success every key has an entry that was answered for a lookup with that key. |
| LabelFetch.FetchInParallel | pkg/events/filter.go:141-195 | Every schedule terminates with that outcome; the run is returned, and in its last state every lookup was asked exactly once. |
| EventFilter.CacheKeyInjective | pkg/events/filter.go:259-261 | Keys of one component tell objects apart when namespaces and kinds have no slash. |
| EventFilter.CacheKeyCollision | pkg/events/filter.go:259-261 | Two different pods with one key. |
| EventFilter.CollidingPodsExample | pkg/events/filter.go:106-138 | Those two pods, of which one belongs to the component: with every cache that a schedule may leave the filter differs from the direct one. Nothing in the filter excludes such namespaces; a cluster does. |
| EventFilter.SlashFreeKeysTellApart | pkg/events/filter.go:259-261 | Without slashes in namespaces and kinds, keys tell the objects of the events apart. |
| EventFilter.LookedUpKeyIsUnique | pkg/events/filter.go:200-218 | With slash-free namespaces, an object of a mapped kind whose fetch does not fail shares its key with no other object, if the API refuses names with slashes. |
| EventFilter.RealApiAgrees | pkg/events/filter.go:106-138 | So with slash-free namespaces and an API that refuses names with slashes, keys agree whatever the kinds are, unless a lookup fails. |
| EventFilter.CollectLookups | pkg/events/filter.go:109-120 | Each object that some event is about, exactly once. |
| EventFilter.RequestsOnce | pkg/events/filter.go:109-120 | Asking every lookup once requests each object of a mapped kind that some event is about exactly once, and nothing else. |
| EventFilter.FilterEventsByComponent | pkg/events/filter.go:106-218 | Under every schedule: each object of a mapped kind is requested exactly once; it fails iff the API fails to answer for the object of an event of a mapped kind; otherwise, when keys agree, the result keeps, in order, exactly the events whose object is of a mapped kind, exists and carries the component's label. |
| EventFilter.NaiveIffKeysAgree | pkg/events/filter.go:106-138 | With no failing lookup, for whatever cache the schedule leaves, the cached filter is the direct one iff objects that share a key are answered alike. |
| EventFilter.AlwaysNaiveIffKeysTellApart | pkg/events/filter.go:106-138 | For given events, the cached filter is the direct one for every API without failing lookups and every cache that covers the events, iff events that share a key are about one object or about kinds that nobody looks up. |
| InstallChecks.NeverMoreThanEight | pkg/deps/install.go:725-741 | In no state of any interleaving do more than eight checks hold the semaphore. |
| InstallChecks.NeverStuck | pkg/deps/install.go:725-741 | Until all checks have ended some check can step: they do not deadlock on the semaphore. |
| InstallChecks.RunsAreBounded | pkg/deps/install.go:725-745 | No interleaving takes more than two steps per check. |
| InstallChecks.StepKeepsInv | pkg/deps/install.go:725-745 | Every step of every check keeps the semaphore's count equal to the checks that hold it, at most eight, and the ended checks' slots equal to their answers. |
| InstallChecks.ChecksOutcome | pkg/deps/install.go:725-745 | A finished run has ended each check exactly once, reports an error iff some check fails, and otherwise every slot holds the answer of its own check. |
| InstallChecks.RunChecks | pkg/deps/install.go:725-745 | Every schedule terminates with that outcome; the run is returned, and in none of its states do more than eight checks hold the semaphore. |
| Install.FilterDepsToInstall | pkg/deps/install.go:709-758 | Fails iff a check of a wanted dependency fails; else returns exactly the wanted dependencies that are missing, in input order, for every completion order; the run of the checks is returned, with never more than eight holding the semaphore. |
| Install.WantedIff | pkg/deps/install.go:760-779 | With an explicit list exactly what it names is wanted; without one, what is enabled, and what is optional only on request. |
| Install.WaitForOperatorsParallel | pkg/deps/install.go:656-693 | Under every schedule the cluster sees one wait begin and end for each pending dependency and none for the others; exactly the pending slots are filled, each with the outcome of its own dependency. |
| Install.CreateAll | pkg/deps/install.go:564-584 | The cluster sees one creation for every dependency, in order; pending are exactly those that could be created. |
| Install.InstallAll | pkg/deps/install.go:564-604 | The cluster sees every creation in order and only then the waits, one begun and ended for each dependency that could be created and none for the others; every slot ends up installed or failed as the cluster decides for its dependency; the errors are those of the failed slots, in order. |
| Install.ReportSays | pkg/deps/install.go:564-604 | A slot says failed iff the creation or the wait failed, and otherwise which version came up. |
| Install.CreatedBeforeWaits | pkg/deps/install.go:564-592 | When a wait begins, every creation has been attempted, and that of the awaited dependency succeeded. |
| Install.ErrorIffSomeFailed | pkg/deps/install.go:591-604 | An error is returned iff the installation of some dependency failed, and names exactly the failed ones. |
| Install.ValidateServiceAccounts | pkg/deps/install.go:627-654 | Succeeds iff the newer OLM API is not selected or every namespace has the account. The cluster sees one look at each namespace, none twice: all of them on success, else up to the first without the account. |
| Install.RunInstall | pkg/deps/install.go:546-605 | Which of the four ends the run comes to, each iff its condition holds; the cluster sees the account lookups, and the creations and waits only if all checks succeed and all accounts exist; an error is reported iff some installation fails. |
| Install.SlicesEqualUnordered | pkg/deps/install.go:1561-1582 | True iff the two slices have the same elements equally often. |
| StepTrees.EditCommutes | pkg/migrate/action/recorder_impl.go:43-95 | Changing one entry of the table of linked recorders changes the tree at that entry's path, and nowhere else. |
| StepTrees.EditIsExact | pkg/migrate/action/recorder_impl.go:43-95 | Node by node: the node at the path gets the new step, or the new leaf as its last child; every other node keeps its step, its place and its number of children, and no other node appears. |
| StepTrees.PathStays | pkg/migrate/action/recorder_impl.go:43-95 | Whatever is recorded later, a recorder stays where it is in the tree. |
| StepTrees.EditSize | pkg/migrate/action/recorder_impl.go:43-73 | Appending a leaf adds exactly one step to the tree; changing a step adds none. |
| Recorder.StepRecorder.Root | pkg/migrate/action/recorder_impl.go:25-30 | A new root shows the empty tree. |
| Recorder.StepRecorder.Child | pkg/migrate/action/recorder_impl.go:43-73 | Appends one running leaf as the last child at this recorder's position; no other step changes or moves; the new recorder writes to the new leaf. |
| Recorder.StepRecorder.Complete | pkg/migrate/action/recorder_impl.go:76-95 | Sets the status and the message of the own step and nothing else; does nothing on the root. |
| Recorder.StepRecorder.AddDetail | pkg/migrate/action/recorder_impl.go:115-122 | Sets one detail of the own step and nothing else; does nothing on the root. |
| Recorder.StepRecorder.Record | pkg/migrate/action/recorder_impl.go:125-133 | Appends exactly one leaf, completed with the given status and message. |
| Recorder.AppendThenSet | pkg/migrate/action/recorder_impl.go:125-133 | Appending a leaf and then changing it is appending the changed leaf, at every position of every tree. |
| Recorder.StepRecorder.BuildSteps | pkg/migrate/action/recorder_impl.go:151-167 | The recursive copy is the subtree that the recorders below show. |
| Recorder.StepRecorder.Build | pkg/migrate/action/recorder_impl.go:136-148 | The result is the abstract tree, with one step for every recorder but the root. |
| RecorderRuns.OneStepPerAddition | pkg/migrate/action/recorder_impl.go:43-166 | For every sequence of calls, the number of steps is the number of Child and Recordf calls. |
| RecorderRuns.RecordIsTwoCalls | pkg/migrate/action/recorder_impl.go:125-133 | Recordf is a Child call and a Complete call on the new recorder, so runs in which another goroutine gets in between are runs of these calls. |
| RecorderRuns.Play | pkg/migrate/action/recorder_impl.go:25-167 | For every sequence of calls on whatever recorders were handed out before, the built result is the tree that the same calls make of an abstract tree, and has one step per Child and Recordf call. |
| BuiltResults.CallShownIff | pkg/migrate/action/recorder_impl.go:115-167 | A built result shares each step's map of details with its recorder: a later call changes what the result shows iff it adds a detail to a step of the result, and one that the step did not have. |
| BuiltResults.ResultStaysAsBuilt | pkg/migrate/action/recorder_impl.go:136-167 | For all calls before and after a build: the result keeps showing the tree recorded when it was built, as long as no call adds a new detail to one of its steps. |

## Left out

- Pipeline: workloads are named by their position in the listing. Whether the dependencies of a workload resolve is fixed for a run, but any resolve may also fail once the run is cancelled.
- Pipeline: at least one worker; `Complete` (pkg/backup/command.go:74-109) replaces zero by a default.
- Pipeline: the selection of workload types (`resolveWorkloadGVRs`), the stripping of fields and the writing of files, which are calls into other packages.
- BackupWriter.WriteWorkloadWithDeps: a dry run announces resources rather than the paths that `getResourcePath` makes of them.
- BackupWriter.BackupIsScheduleIndependent: which resources cannot be written is fixed for a run, so a disk that fails at times is not captured.
- Unstructured.StripInPlace: the document is rebuilt in a local variable rather than changed in shared memory, so aliasing between subdocuments is not captured; decoded JSON has none.
- ApiServer: the status subresource, defaults that the server fills in, and requests other than those the migration makes.
- Migrate.MigrateSingleClusterLive: the waits for readiness and for the route after the update, which only read; they are left out of Migrate.RestoreSingleCluster too.
- Migrate.PostUpgradeLive: the listing of clusters and the prompt are inputs.
- Migrate.ExecuteBackupRestore: the parsing of backup files is left out; the backups are inputs, and each is named by its own metadata.
- DependencyGraph.BuildDepMap: the table of display names is a parameter; what is proved holds for every table.
- DependencyGraph: `GetDependencies` sorts what the manifest lists and adds the maps above.
- Watch.RunWatch: time is a sequence of ticks; whether emitting succeeds and whether a sleep ends before the context does are part of each event.
- EventFilter: the watch mode, which reconnects and reads the same key and lookup with a cache that is never invalidated.
- Install: what one check, one creation and one wait ask the cluster (`isAlreadyInstalled`, `createDepResources`, `waitForCSV`) are inputs that depend on the dependency alone; the printed output.
- InstallChecks.RunChecks: a check that fails because another one failed first is modelled as such; a cancellation from outside is not.
- Recorder: each locked section is one atomic step; timestamps and verbose output are left out, and details are strings.
- Recorder.StepRecorder.Build: the steps are a copy here; `BuiltResults` says what becomes of the maps of details that the code shares.
- Command lines, logging, tables, marshalling and the Kubernetes clients.
