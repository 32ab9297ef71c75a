# A model of formae's execution core

formae turns a set of resource changes into a dependency graph, runs that graph under a rate limit, and drives each
change through a plugin. This project models that core in Dafny and proves what it guarantees over all inputs and all
runs. `dafny verify dfyconfig.toml` checks everything.

## How the model is laid out

* **Shared.** `Common.dfy` has what several parts use.
* **Scheduling.** `Digraph.dfy` has walks, cycles and sources. `Operations.dfy` says which operation is linked behind
  which and when the links form a cycle. `Scheduler.dfy` is the scheduler without data structures, with the run relation
  of the executor and the theorems over whole runs. `UpdateGroup.dfy`, `PipelineLinks.dfy`, `PipelineBuild.dfy` and
  `Changeset.dfy` are the linked groups, changed in place: every method of `Changeset` says how the scheduler state that
  the groups stand for moves. `RateLimiter.dfy` is the token bucket and `ChangesetExecutor.dfy` the executor, whose
  handlers are proved to be steps of the run relation. `Replacements.dfy` is about commands with one
  operation per resource or a replacement. `RunReports.dfy` labels runs with their reports and says what they make of
  each operation and when the executor gets stuck. `ExecutorRuns.dfy` shows that every trace of the executor is a run, so
  that the theorems hold of the executor over the groups, and that driving it from a command to its end terminates.
* **Change detection.** `Json.dfy` has JSON trees and the comparison that ignores array order. `Persistence.dfy` has
  normalising and hashing and `PersistenceLoops.dfy` their loops; `ResourceComparison.dfy` has SetOnce filtering and the
  comparison itself, `OpaqueDocuments.dfy` and `SetOnceLists.dfy` exactly when it reports a change for what was
  persisted. `DocumentPaths.dfy` says what hashing and filtering do to a document path by path, and `Pruning.dfy` what
  normalising leaves of one. The hash function is a parameter that yields 64 lower-case hexadecimal characters, and so is the
  rendering of a scalar as text.
* **Planning.** `Reconcile.dfy` defines a plan as a set of operations and proves what it achieves;
  `ReconcileGenerator.dfy` has the loops that compute it. The difference between an existing resource and a wanted one
  (none, in place, replacement) is a parameter.
* **Running one update.** `Progress.dfy`, `ResourceUpdater.dfy` and `PluginOperator.dfy` are the two state machines.
  What plugins, persisters and the resolve cache answer is arbitrary.
* **Storage and text.** `ResourceTable.dfy`; `PklFormat.dfy`, `PklFormatter.dfy` for its loops and `PklLexing.dfy` for what
  a line and its depth amount to; and `MapCodec.dfy`.

Map iteration order is nondeterministic everywhere. Identifiers, clocks and versions are parameters.

## What the proofs found

* An updater that stops at a failed read before an update or delete ends with its state at InProgress, because the state
  is computed from fewer results than there are required operations (resource_update.go:241-244, resource_updater.go:539-541).
  Such a report changes nothing in the changeset, and no other will come.
* A read that is still under way when the plugin first answers, as after one throttled attempt, leaves the updater in a
  phase without handlers (resource_updater.go:170-182): it never reports. Neither does an updater that could not reach the
  resolve cache. A delete that could not be started waits without a timeout. `ResourceUpdating.FreshRun` says exactly when
  each happens.
* In these cases the executor may wait for good. `RunReports.WaitsForReports` shows that it gets stuck only on
  operations reported as still in progress or never reported, and `RunReports.StuckRun` that it does.
* `MaxAttempts` is `MaxRetries + 1`, but an operation that keeps failing recoverably is invoked `MaxRetries + 2` times.
* From the second attempt on, a plugin result is reported with the status message of the first recoverable failure in place
  of its own; of an operation resumed after its first attempt, with none (`PluginOperating.ReportedTexts`).
* Re-indenting is not idempotent where a text is indented but nothing is at depth one, as after two braces opened on one line.
* A store that goes back to an earlier native ID is compared with the old row and can be lost.
* An opaque value is seen as changed each time it is applied if it is null or absent, an array or object of which
  normalisation leaves nothing, or one that normalisation alters so that it hashes to another text, such as an object with
  one null field. With SetOnce, only null and absent values are.
* SetOnce values in a list are matched by position with a stored list from which empty objects have been dropped. A value
  after such an element, at a position that the stored list reaches, is taken for another one, and applying the list again
  would write the wrong value (`SetOnceLists.ListChangesExactly`).
* Opaque texts are replaced in a patch only where they are a whole value; inside an object they stay in plain text.
* `StringToMap` promises an error for malformed text; the code has an index out of range instead. The model returns no map.
* The comment on the order-insensitive comparison says that arrays are treated as sets; the code, and the model, treat
  them as multisets.

## Model

| member | source | states |
|---|---|---|
| Operations.CycleCharacterisation | internal/metastructure/changeset/changeset.go:73-250 | the linked graph has a cycle if and only if the references among deleted resources, or those among created and updated ones, have one; split replaces and delete-before-create links never add any |
| Operations.ReferrerWaitsForReferenced | internal/metastructure/changeset/changeset.go:104-132 | a create or update is linked behind another exactly if it has a reference with the other's KSUID, whatever property the reference names; where a command has several for one resource, the last one counts |
| Operations.ReferencedDeleteWaitsForReferrer | internal/metastructure/changeset/changeset.go:73-101 | a delete is linked behind another exactly if the other has a reference with its KSUID, whatever property the reference names |
| Operations.CreateWaitsForDelete | internal/metastructure/changeset/changeset.go:135-167 | a create is linked behind a delete exactly if the two have the same stack, label and type |
| Operations.SplitExactly | internal/metastructure/changeset/changeset.go:176-193 | the operations of a command are its updates, with each replacement as a delete and a create of the same resource |
| Operations.LastOperationWins | internal/metastructure/changeset/changeset.go:195-207 | of several updates for one operation on a resource, the group holds the last |
| Operations.FragmentExactly | pkg/model/resource.go:49-53 | the namespace is the part of the type before the first pair of colons |
| Operations.EdgeShape | internal/metastructure/changeset/changeset.go:61-167 | every link joins operations of the command: deletes with deletes, creates and updates among themselves, or a delete with a create |
| Operations.ClosedWalkStaysInPhase | internal/metastructure/changeset/changeset.go:61-167 | a closed walk through the links consists of deletes only or of creates and updates only |
| PipelineBuild.AllCleanMeansAcyclic | internal/metastructure/changeset/changeset.go:221-250 | a search from every group that meets no group twice on a path shows that there is no cycle |
| PipelineBuild.PathCloses | internal/metastructure/changeset/changeset.go:232-250 | a group met twice on one path is a cycle, so diamonds are never reported |
| ChangesetPipeline.Changeset.Init | internal/metastructure/changeset/changeset.go:175-219 | reports a cycle exactly when the links of the split operations form one, whatever the order of the maps, and otherwise leaves a pipeline that is ready to run |
| ChangesetPipeline.Changeset.BuildDeleteDependencies | internal/metastructure/changeset/changeset.go:73-101 | adds exactly the reversed reference links among deletes |
| ChangesetPipeline.Changeset.BuildCreateUpdateDependencies | internal/metastructure/changeset/changeset.go:104-132 | adds exactly the reference links among creates and updates |
| ChangesetPipeline.Changeset.ConnectDeleteToCreate | internal/metastructure/changeset/changeset.go:135-167 | adds exactly the links from a delete to the create with the same stack, label and type |
| ChangesetPipeline.Changeset.LinkWith | internal/metastructure/changeset/changeset.go:252-262 | enters each group in the other's list |
| ChangesetPipeline.Changeset.HasCycles | internal/metastructure/changeset/changeset.go:221-230 | true exactly when the links have a cycle |
| ChangesetPipeline.Changeset.Dfs | internal/metastructure/changeset/changeset.go:232-250 | terminates; a report means a cycle, and no report means that no path from here meets a group twice |
| Scheduler.RunInvariant | internal/metastructure/changeset/changeset_executor.go:154-299 | every state of every run, under any interleaving of batches, timers and finish reports, keeps the scheduling invariant, and nothing that was started, succeeded or failed is undone |
| Scheduler.RunOrdering | internal/metastructure/changeset/changeset.go:332-508 | in every run an operation is started only after everything it was linked behind has succeeded, and what it waited for is never running again |
| RunReports.ReportsDecide | internal/metastructure/changeset/changeset_executor.go:212-299 | in every run the operations that have succeeded are those that reported success, and those that have failed are the ones that reported failure or rejection with everything that waits for them, directly or through others |
| RunReports.WaitsForReports | internal/metastructure/changeset/changeset_executor.go:177-299 | in a run where each operation is reported at most once, and those of a given set never: unless an operation was reported as still in progress or one of the set was started, a processing executor waits for an operation that can be reported or for its timer; if it waits for nothing, all that runs is of these two kinds; with one of either kind it never ends successfully |
| RunReports.MuteStayRunning | internal/metastructure/changeset/changeset_executor.go:212-299 | an operation that is never reported stays in progress once it is started |
| RunReports.AbandonedStayRunning | internal/metastructure/changeset/changeset_executor.go:212-299 | an operation reported as still in progress is never finished |
| RunReports.StuckForGood | internal/metastructure/changeset/changeset_executor.go:177-299 | an executor that waits for nothing does not move again |
| RunReports.StuckRun | internal/metastructure/changeset/changeset_executor.go:212-299 | a run that gets there: one operation, started and reported as still in progress, or never reported |
| RunReports.StepHasLabel | internal/metastructure/changeset/changeset_executor.go:154-299 | a step of the run relation is a start, a timer pass, the report of a running operation, or a report that finds none |
| Scheduler.RunConservation | internal/metastructure/changeset/changeset.go:394-472 | at every point of every run the initial operations are partitioned into live, succeeded and failed, and what waits for a failed one has failed without being started |
| Scheduler.RunTermination | internal/metastructure/changeset/changeset.go:332-472 | over a run, the steps that shrink the live set and those that start something each number at most as many as there were operations |
| Scheduler.RunIdleSteps | internal/metastructure/changeset/changeset.go:332-472 | any other step leaves the scheduler as it was |
| Replacements.RunOneOperationPerUri | internal/metastructure/changeset/changeset_executor.go:212-256 | if operations on one resource are a single one or one delete and one create, no resource ever has two in progress |
| Replacements.SingleOrReplacementOrdered | internal/metastructure/changeset/changeset.go:135-167 | any two such operations on one resource are ordered by the links |
| Scheduler.ReadyOrRunning | internal/metastructure/changeset/changeset.go:332-392 | with live operations left, one is running or one can be started |
| Scheduler.StartKeepsInv | internal/metastructure/changeset/changeset.go:332-364 | starting ready operations keeps the invariant and starts none twice |
| Scheduler.FinishKeepsInv | internal/metastructure/changeset/changeset.go:394-472 | a final report keeps the invariant and strictly shrinks the live set |
| Scheduler.DependentsUntouched | internal/metastructure/changeset/changeset.go:485-508 | whatever waits for a running operation is live and has never been started |
| ChangesetPipeline.Changeset.GetExecutableUpdates | internal/metastructure/changeset/changeset.go:332-364 | starts exactly min(n, available) updates of the namespace, all ready, each for the first time, in whatever order the map yields them |
| ChangesetPipeline.Changeset.AvailableExecutableUpdates | internal/metastructure/changeset/changeset.go:366-392 | counts, for each namespace, exactly the operations that are ready |
| ChangesetPipeline.Changeset.IsComplete | internal/metastructure/changeset/changeset.go:566-587 | true exactly when no group is left |
| ChangesetPipeline.Changeset.UpdatePipeline | internal/metastructure/changeset/changeset.go:394-472 | success takes the operation out; failure or rejection takes it out with all live dependents and returns each of those once and then the update; any other state changes nothing; a group that is gone is an error |
| ChangesetPipeline.Changeset.CompleteSuccess | internal/metastructure/changeset/changeset.go:401-429 | after the two loops over the shifting slice nobody left waits for the finished operation |
| ChangesetPipeline.Changeset.UnlinkReferrers | internal/metastructure/changeset/changeset.go:404-417 | the loop over the slice that unlinking shifts in place may skip groups, and still leaves every skipped one in the list |
| ChangesetPipeline.Changeset.UnlinkWith | internal/metastructure/changeset/changeset.go:264-280 | takes each group out of the other's list, the downstream one by shifting its array |
| ChangesetPipeline.Changeset.RemoveUpstreamGroup | internal/metastructure/changeset/changeset.go:282-289 | takes a group out of an upstream list |
| ChangesetPipeline.Changeset.ReleaseDownstream | internal/metastructure/changeset/changeset.go:419-426 | the later pass covers exactly the groups that the first loop skipped |
| PipelineLinks.SuccessStructure | internal/metastructure/changeset/changeset.go:401-426 | unlinking a finished group in any partial order followed by the later pass restores the link structure for the live groups |
| ChangesetPipeline.Changeset.RecursivelyFailDependencies | internal/metastructure/changeset/changeset.go:485-508 | marks and reports each not yet started group below a failed one once, over stale and shared links |
| PipelineLinks.CascadeIsDependents | internal/metastructure/changeset/changeset.go:474-508 | what a finished cascade has marked is exactly the set of transitive live dependents |
| ChangesetPipeline.Changeset.CompleteFailure | internal/metastructure/changeset/changeset.go:431-469 | the returned list is the dependents, each once, and then the failed update; none of them remains in the pipeline |
| PipelineLinks.FailStructure | internal/metastructure/changeset/changeset.go:443-466 | afterwards no live group lists a removed one upstream |
| UpdateGroup.ShiftedDownSlice | internal/metastructure/changeset/changeset.go:264-280 | removing from the slice by shifting leaves the list without its first such element |
| UpdateGroup.NextUpdate | internal/metastructure/changeset/changeset.go:309-317 | the next update of a group is its first one that has not been started |
| UpdateGroup.Pop | internal/metastructure/changeset/changeset.go:319-326 | takes the update out of its group |
| ChangesetExecution.ChangesetExecutor.Start | internal/metastructure/changeset/changeset_executor.go:154-175 | is a start step of the run relation; an empty changeset is an error |
| ChangesetExecution.ChangesetExecutor.Resume | internal/metastructure/changeset/changeset_executor.go:177-210 | starts ready operations as far as tokens go and leaves a timer pending exactly when some ready one was held back |
| ChangesetExecution.ChangesetExecutor.TimerFired | internal/metastructure/changeset/changeset_executor.go:177-210 | is a timer step of the run relation |
| ChangesetExecution.ChangesetExecutor.FindRunning | internal/metastructure/changeset/changeset_executor.go:212-233 | finds the running update with the reported URI if and only if there is one |
| ChangesetExecution.ChangesetExecutor.ResourceUpdateFinished | internal/metastructure/changeset/changeset_executor.go:212-299 | is a finish step of the run relation: the update found takes the state, the changeset moves on, and the executor ends or resumes |
| ExecutorRuns.Execute | internal/metastructure/changeset/changeset.go:175-219 | from a command to its end: a command is turned away exactly when its links form a cycle; otherwise, when calls succeed and buckets fill, the executor ends on every schedule with every operation succeeded or failed |
| ExecutorRuns.RunToEnd | internal/metastructure/changeset/changeset_executor.go:177-299 | from any state of a run, with calls that succeed and running updates that report some final state, the executor terminates successfully with nothing left, whenever its timer fires and whatever finite number of useless messages comes in between |
| ExecutorRuns.Drive | internal/metastructure/changeset/changeset_executor.go:154-299 | the trace of the executor over any messages, with whatever fails around it, is a run of the scheduler, and every state of it is ordered, cascaded, waiting and conserved |
| ChangesetExecution.ChangesetExecutor.EndOrResume | internal/metastructure/changeset/changeset_executor.go:290-299 | ends when no group is left, and resumes otherwise |
| RateLimiting.TokensStayInRange | internal/metastructure/changeset/rate_limiter.go:32-41 | tokens stay between 0 and the capacity |
| RateLimiting.WindowBound | internal/metastructure/changeset/rate_limiter.go:77-87 | with a monotone clock, at most Capacity * (ceil(T) + 1) tokens are granted in any window of T seconds |
| RateLimiting.OneSecondBound | internal/metastructure/changeset/rate_limiter.go:77-87 | hence at most twice the capacity in any one second |
| RateLimiting.RefillsInWindow | internal/metastructure/changeset/rate_limiter.go:36-41 | a window of T seconds sees at most ceil(T) refills |
| RateLimiting.GrantedBound | internal/metastructure/changeset/rate_limiter.go:32-41 | everything granted comes from the first filling or a refill |
| RateLimiting.RateLimiter.RequestTokens | internal/metastructure/changeset/rate_limiter.go:77-87 | fills the namespace's bucket if more than a second has passed since it was last filled, grants the lesser of the request and what is in it, and takes that out of this bucket alone |
| Json.DeepEqualIgnoreArrayOrder | internal/metastructure/util/json.go:73-136 | true exactly when scalars are equal, objects agree key by key and the elements of arrays can be paired off in some order, at every depth; on trees without arrays, exactly when they are equal; and exactly when they are equal with every array read as a multiset |
| Json.SameIsAlike | internal/metastructure/util/json.go:73-136 | reading arrays as multisets makes the same trees equal as pairing their elements off does, so the comparison is reflexive, symmetric and transitive |
| Json.SameWithoutArrays | internal/metastructure/util/json.go:133-134 | trees without arrays are alike only if they are equal |
| Json.MarkFirstEqual | internal/metastructure/util/json.go:99-129 | marks exactly one unmarked partner, if and only if there is one |
| Json.NoPartner | internal/metastructure/util/json.go:99-129 | an element without an unmarked partner rules equality out, so greedy marking never has to be undone |
| Json.MatchingComplete | internal/metastructure/util/json.go:99-136 | when every element has a partner, the arrays are equal exactly when all of the other side is marked |
| Pruning.NormExactly | internal/metastructure/resource_update/resource_comparison.go:259-295 | normalising a property gives a value exactly if something is left and that is the value without its null and hollow properties and without the hollow objects in its arrays, the other elements keeping their order |
| Pruning.NormPropsExactly | internal/metastructure/resource_update/resource_comparison.go:238-295 | the same for all properties of a resource |
| Pruning.EmptyValuesGo | internal/metastructure/resource_update/resource_comparison.go:259-295 | nulls, empty arrays and empty objects go, also an empty object in an array and an empty array in an object |
| Pruning.OtherValuesStay | internal/metastructure/resource_update/resource_comparison.go:259-295 | scalars stay, empty ones too, and so do nulls and empty arrays inside arrays |
| DocumentPaths.HashedExactly | internal/metastructure/transformations/persist_value_transformer.go:94-137 | at the path of each opaque object that hashing comes to, through objects and arrays but not through arrays in arrays, the value is replaced by its hash and all else of it kept; at every path that is not below such an object nothing changes |
| DocumentPaths.NotedExactly | internal/metastructure/transformations/persist_value_transformer.go:94-137 | the texts noted are exactly those of the opaque objects that hashing comes to, less empty ones and hashes, each with the text that replaces it |
| DocumentPaths.FilteredExactly | internal/metastructure/resource_update/resource_comparison.go:55-219 | at every path that filtering comes to, a list of tags has its values matched with the last stored tag of the same key, a SetOnce object gives way to what is stored at the same path if that is not null, and anything else is as it was |
| Persistence.NormIdempotent | internal/metastructure/resource_update/resource_comparison.go:259-295 | normalising twice is normalising once |
| Persistence.HashIdempotent | internal/metastructure/transformations/persist_value_transformer.go:94-178 | hashing opaque values twice is hashing once |
| Persistence.Commute | internal/metastructure/transformations/persist_value_transformer.go:94-137 | on values whose opaque parts are stable, normalising and hashing commute |
| Persistence.PersistedFixed | internal/metastructure/transformations/persist_value_transformer.go:94-137 | what is persisted changes under neither |
| PersistenceLoops.ProcessProps | internal/metastructure/transformations/persist_value_transformer.go:94-137 | the loop that overwrites opaque values in place, in any order of keys, hashes exactly those outside arrays' own elements, leaves hashed ones alone, and notes the text of each with a text that replaced it |
| PersistenceLoops.MaskIsHash | internal/metastructure/transformations/persist_value_transformer.go:94-137 | what is noted for a text is its hash, except for a null value |
| PersistenceLoops.TransformPatchDocument | internal/metastructure/transformations/persist_value_transformer.go:140-165 | substitutes exactly the noted texts among the values of a patch |
| PersistenceLoops.ApplyToResource | internal/metastructure/transformations/persist_value_transformer.go:24-69 | properties and read-only properties are hashed; a patch value that as a whole has the text of an opaque one becomes its hash, or the text of null, and every other is kept; so an opaque text remains in a patch value exactly when it is inside an array or object not covered as a whole, or is itself what stands in |
| PersistenceLoops.TextInsideIsKept | internal/metastructure/transformations/persist_value_transformer.go:152-159 | an opaque text in a field of an object in the patch stays there in plain text |
| PersistenceLoops.LooksHashed | internal/metastructure/transformations/persist_value_transformer.go:168-178 | true exactly for 64 lower-case hexadecimal characters |
| PersistenceLoops.NormalizeObject | internal/metastructure/resource_update/resource_comparison.go:259-295 | builds the object without nulls, empty arrays and empty objects, at every depth |
| ResourceComparison.FilterAbsorbed | internal/metastructure/resource_update/resource_comparison.go:55-219 | filtering a value against its own stored form, then normalising and hashing, gives the stored form |
| ResourceComparison.ReapplyIsNoChange | internal/metastructure/resource_update/resource_comparison.go:23-52 | comparing properties with their own persisted form reports no change, SetOnce values in lists included |
| ResourceComparison.ItemAbsorbed | internal/metastructure/resource_update/resource_comparison.go:95-115 | a list element filtered against its own stored form gives the stored form |
| SetOnceLists.ListChangesExactly | internal/metastructure/resource_update/resource_comparison.go:55-115 | re-applying a list of different SetOnce values and empty objects is seen as a change if and only if some value is shifted: an empty object is dropped before it and the stored list reaches its position |
| SetOnceLists.ListCompared | internal/metastructure/resource_update/resource_comparison.go:55-115 | what such a list is compared as, and would be applied as: each value is replaced by the stored one at its position |
| SetOnceLists.DroppedElementShifts | internal/metastructure/resource_update/resource_comparison.go:55-115 | an empty object ahead of two SetOnce values is seen as a change, and the second value would be applied twice; ahead of one it is not |
| Persistence.OpaqueShapes | internal/metastructure/transformations/persist_value_transformer.go:97-117 | which opaque values survive normalisation with their hash: all scalars and all that normalisation leaves alone, none that it leaves nothing of, and other arrays and objects exactly if both forms hash to one text |
| Persistence.HollowExactly | internal/metastructure/resource_update/resource_comparison.go:259-295 | normalisation leaves nothing exactly of null and of arrays and objects made of such values |
| Persistence.CompactExactly | internal/metastructure/resource_update/resource_comparison.go:259-295 | normalisation changes nothing exactly where there is no null, empty array or empty object for it to find |
| ResourceComparison.OpaqueExact | internal/metastructure/resource_update/resource_comparison.go:23-52 | for an opaque property without SetOnce, a change is reported if and only if normalisation leaves nothing of its value, or leaves of an array or object something that hashes to another text |
| ResourceComparison.OpaqueExactByShape | internal/metastructure/resource_update/resource_comparison.go:23-52 | where the hash tells the two apart, a change is reported if and only if the value has a null, empty array or empty object to lose |
| ResourceComparison.OpaqueSetOnceExact | internal/metastructure/resource_update/resource_comparison.go:23-52 | for an opaque SetOnce property, a change is reported if and only if its value is null or absent |
| ResourceComparison.NullOpaqueChanges | internal/metastructure/resource_update/resource_comparison.go:23-52 | a null opaque value, or an absent one, is reported as changed |
| OpaqueDocuments.ChangedByProperty | internal/metastructure/resource_update/resource_comparison.go:23-52 | a document is seen as changed if and only if one of its properties, alone, is; so each condition above holds within any document |
| OpaqueDocuments.ReapplyChangesExactly | internal/metastructure/resource_update/resource_comparison.go:23-52 | a document without SetOnce is seen as changed if and only if some opaque value that hashing reaches, at any depth outside arrays, does not survive normalisation with its hash; those in arrays are taken to |
| OpaqueDocuments.DocumentChangesExactly | internal/metastructure/resource_update/resource_comparison.go:23-52 | the same with opaque SetOnce properties, which count if their value is null or absent, and with every property that is known not to change |
| OpaqueDocuments.UnstableShows | internal/metastructure/resource_update/resource_comparison.go:259-295 | an opaque value that does not survive makes the property differ, however deep it is outside arrays |
| ResourceComparison.ProcessValue | internal/metastructure/resource_update/resource_comparison.go:55-115 | the walk that rewrites the document at paths computes the value-by-value filter |
| ResourceComparison.ProcessTagsArray | internal/metastructure/resource_update/resource_comparison.go:135-192 | tags are matched by key instead of position |
| ResourceComparison.FilterSetOnceProps | internal/metastructure/resource_update/resource_comparison.go:55-115 | the rewritten document is the filtered one |
| ResourceComparison.EnforceSetOnceAndCompare | internal/metastructure/resource_update/resource_comparison.go:23-52 | reports a change exactly when the stored and the new form differ up to array order, and returns the properties to apply |
| Reconcile.ReconcileConverges | internal/metastructure/resource_update/resource_update_generator.go:308-497 | applying the plan leaves in each stack of the forma exactly the forma's resources, each once |
| Reconcile.ReferrersAreDeleted | internal/metastructure/resource_update/resource_update_generator.go:632-710 | every existing resource that has a reference with the KSUID of one that is replaced or removed is deleted too, whatever property the reference names |
| Reconcile.DeletedExactly | internal/metastructure/resource_update/resource_update_generator.go:308-497 | an existing resource is deleted if and only if the forma replaces it, or speaks about its stack and does not have it, or it has a reference with the KSUID of another one of which that is true |
| Reconcile.CreatedExactly | internal/metastructure/resource_update/resource_update_generator.go:308-497 | a resource of the forma is created if and only if nothing that exists matches it, or what matches it is deleted |
| Reconcile.UpdatedExactly | internal/metastructure/resource_update/resource_update_generator.go:374-446 | a resource is updated if and only if the forma has it in a form that differs in place and it is not deleted |
| Reconcile.OthersStay | internal/metastructure/resource_update/resource_update_generator.go:308-497 | a resource of a stack that the forma does not speak about, and that has no reference to anything replaced or removed, is left as it was |
| Reconcile.UpdatesAndDeletesApart | internal/metastructure/resource_update/resource_update_generator.go:712-778 | no resource keeps both an update and a delete |
| Reconcile.FinalPlanSettles | internal/metastructure/resource_update/resource_update_generator.go:308-497 | the plan settles every resource: it creates only what is asked for, updates only matches, deletes only what exists, and treats matched, unmatched and new resources as follows |
| Reconcile.MatchedFate | internal/metastructure/resource_update/resource_update_generator.go:374-446 | a resource that exists and is asked for is created exactly if it is deleted, and is updated exactly if it is not deleted and differs in place |
| Reconcile.UnmatchedFate | internal/metastructure/resource_update/resource_update_generator.go:434-445 | a resource of a touched stack that is not asked for is deleted |
| Reconcile.NewFate | internal/metastructure/resource_update/resource_update_generator.go:448-473 | a resource that is asked for and does not exist is created |
| ReconcileGenerator.CompareWithForma | internal/metastructure/resource_update/resource_update_generator.go:375-432 | the updates and replacements of one existing resource |
| ReconcileGenerator.PlanCreates | internal/metastructure/resource_update/resource_update_generator.go:448-473 | creates exactly what the forma has and the stack has not |
| ReconcileGenerator.PlanAllStacks | internal/metastructure/resource_update/resource_update_generator.go:325-474 | going stack by stack plans what comparing everything at once would |
| ReconcileGenerator.FindResourcesThatDependOn | internal/metastructure/resource_update/resource_update_generator.go:632-657 | finds exactly the other resources that refer to the target |
| ReconcileGenerator.FindDependencyUpdates | internal/metastructure/resource_update/resource_update_generator.go:660-710 | deletes exactly what refers to something deleted, one reference level deep |
| ReconcileGenerator.ConvertDependencyDeletesToReplacements | internal/metastructure/resource_update/resource_update_generator.go:780-838 | dependency deletes of resources the forma keeps, and which have no other operation, gain a create |
| ReconcileGenerator.ConvertUpdatesToReplacements | internal/metastructure/resource_update/resource_update_generator.go:712-778 | updates of resources deleted as dependents become delete and create, though the list searched shrinks in place, and uncovered deletes are added |
| ReconcileGenerator.GenerateForReconcile | internal/metastructure/resource_update/resource_update_generator.go:308-497 | the list computed by the loops has exactly the deletes, creates and updates described above, by KSUID, stack, label, type and target, and is as a set the plan that the theorems are about |
| ResourceUpdating.SuccessMeansAllSucceeded | internal/metastructure/resource_update/resource_update.go:235-273 | for what a run records, the state is Success exactly when every required operation has a recorded success |
| ResourceUpdating.FreshRun | internal/metastructure/resource_update/resource_updater.go:263-604 | in every fresh run the plugin operations asked for are a prefix of read for a sync, create for a create, read and update for an update, read and delete for a delete, and read, delete and create for a replacement, and all of these with a recorded success each if it ends successfully; creates and updates come only after every value was delivered; an update is rejected exactly when its read found a change and has then only read; success means that everything was done and recorded; an update that ends with an error reports InProgress exactly when it stopped at a recorded failure with operations still due, as every update or delete does whose read fails at once; it will never report exactly when its read was recorded as still under way, the resolve cache could not be reached, or a message came that no handler takes, and every read that is still under way when first answered leads there; otherwise, until it reports, a timeout is pending that makes it report, except for a delete that could not be started; and if nothing goes wrong, it succeeds once its values are delivered |
| ResourceUpdating.Deliver | internal/metastructure/resource_update/resource_updater.go:170-182 | an updater that waits for a read, or has crashed, never reports, whatever messages come |
| ResourceUpdating.ResourceUpdater.Receive | internal/metastructure/resource_update/resource_updater.go:638-654 | a pending timeout ends the update as failed in every phase but the read, which has no handlers |
| ResourceUpdating.ResourceUpdater.RecordProgress | internal/metastructure/resource_update/resource_update.go:143-157 | replaces the entry of the operation or adds one, and recomputes the state |
| ResourceUpdating.ResourceUpdater.UpdateState | internal/metastructure/resource_update/resource_update.go:235-255 | sets the state that the recorded progress amounts to |
| ResourceUpdating.ResourceUpdater.HandleProgressUpdate | internal/metastructure/resource_update/resource_updater.go:471-551 | keeps the invariant that the run theorem reads off: persists, rejects on drift, moves on, or ends |
| ResourceUpdating.ResourceUpdater.NextState | internal/metastructure/resource_update/resource_updater.go:553-604 | phases only move forward: the next required operation is asked for, or a value is waited for, or everything was done; no operation is passed over or asked for again |
| ResourceUpdating.ResourceUpdater.Resolve | internal/metastructure/resource_update/resource_updater.go:330-356 | asks for one outstanding value at a time and moves on only when none is left |
| ResourceUpdating.PhaseRunsRequired | internal/metastructure/resource_update/resource_updater.go:656-669 | the operation of a phase is the required one at its position: reads come first, a delete second, and a create or update last, for the kinds of update that have one |
| PluginOperating.StepOutcome | internal/metastructure/plugin_operation/plugin_operator.go:530-662 | what each message does: the attempt it belongs to, whether the plugin is asked, where the operator goes, a failure being retried exactly if its code is one of the seven recoverable ones, attempts are left and the retry can be scheduled, and the status, code and operation reported |
| PluginOperating.RetryBound | internal/metastructure/plugin_operation/plugin_operator.go:559-662 | however retries and status checks mix, the operation is invoked at most MaxRetries + 2 times |
| PluginOperating.RetryBoundReached | internal/metastructure/plugin_operation/plugin_operator.go:559-662 | and that many times when every attempt is throttled |
| PluginOperating.TerminalMeansFinished | internal/metastructure/plugin_operation/plugin_operator.go:614-662 | handling a result ends the operator exactly when the progress it reports has finished |
| PluginOperating.ReportsEndTheRun | internal/metastructure/plugin_operation/plugin_operator.go:530-662 | over a run only the last report can be a finished one, and the operator has ended exactly when it is, except where it ended silently or was resumed without a plugin |
| PluginOperating.StepReports | internal/metastructure/plugin_operation/plugin_operator.go:530-590 | every message to a running operator changes nothing, ends it silently, or adds one report that is finished exactly when the operator has ended |
| PluginOperating.ReportedTexts | internal/metastructure/plugin_operation/plugin_operator.go:559-662 | over a run, a report of the first attempt carries the plugin's own text; a later one carries the text of the first recoverable failure, or none if the operation was resumed after its first attempt, and so the plugin's own exactly if the two coincide; the operator's own errors have no text |
| PluginOperating.LaterTextIsLost | internal/metastructure/plugin_operation/plugin_operator.go:614-650 | two attempts that fail with different texts are both reported with the first; a resumed one with none |
| ResourceTables.CallExact | internal/metastructure/datastore/sqlite.go:522-665 | on managed rows a store or delete shows in the inventory if and only if it fits: the row with its native ID differs in read-write fields, or is as new as any of its resource, or already shows the content |
| ResourceTables.CallFrame | internal/metastructure/datastore/sqlite.go:522-652 | other resources are shown as before |
| ResourceTables.AdmissibleFits | internal/metastructure/datastore/sqlite.go:536-652 | a call whose native ID is new for its type, or current for its resource and no other's, always fits |
| ResourceTables.TableRefinesMap | internal/metastructure/datastore/sqlite.go:522-767 | after any run of such calls the newest row of each resource last stored is no delete and has its native ID, stack, type, label, properties and read-only properties as they were stored, and any other resource has a delete as its newest row or none |
| ResourceTables.VersionsAdded | internal/metastructure/datastore/sqlite.go:611-651 | a store adds a version exactly when native ID, stack, type, label or properties differ from the newest row; the version it reports is the newest, and holds the resource as given unless all compared fields were shown already, when nothing is written |
| ResourceTables.IdleDelete | internal/metastructure/datastore/sqlite.go:594-609 | deleting a resource that is not shown, with some row matched, changes nothing |
| ResourceTables.StaleNativeIdIsLost | internal/metastructure/datastore/sqlite.go:536-617 | going back to an earlier native ID with earlier content is lost |
| ResourceTables.Datastore.StoreResource | internal/metastructure/datastore/sqlite.go:522-665 | every path through the store, the error included, is a step of the run relation; after an admissible store the newest row has every compared field as stored, after an admissible delete no row that is no delete is the newest, and rows of other resources are as they were |
| ResourceTables.Datastore.LoadAllResources | internal/metastructure/datastore/sqlite.go:731-767 | lists exactly the newest rows that are no deletes, each resource once |
| ResourceTables.Datastore.LoadStack | internal/metastructure/datastore/sqlite.go:836-889 | lists exactly the newest rows of a stack, by column and content, that are no deletes, and nothing for a stack without any |
| PklFormat.TextKept | plugins/pkl/pkl_format.go:14-69 | formatting keeps the number of lines, empties blank ones, and keeps every other line's text after its leading blanks |
| PklLexing.LexOfParts | plugins/pkl/pkl_format.go:76-167 | a line put together from characters, strings and block comments, and ended by a line comment or an open string or block comment, counts as its characters with a quote for each string and nothing for comments |
| PklLexing.EveryLineHasParts | plugins/pkl/pkl_format.go:76-167 | every line can be put together in this way |
| PklLexing.LexFromBlock | plugins/pkl/pkl_format.go:76-167 | from inside a block comment nothing counts up to its end |
| PklLexing.DepthsExactly | plugins/pkl/pkl_format.go:25-66 | a line is as deep as the level before it less the closing braces it begins with, but never below zero; a level is the one before, and the braces opened less those closed on the line |
| PklLexing.NestedDepths | plugins/pkl/pkl_format.go:25-66 | where no line closes more than is open, the depth of a line is the number of braces open before it less the closing ones it begins with |
| PklLexing.FormattedLine | plugins/pkl/pkl_format.go:25-66 | each line with text is written as the unit, as often as the line is deep, and the line from its first character that is no space or tab; lines of blanks are emptied |
| PklLexing.TextExactly | plugins/pkl/pkl_format.go:25-69 | the text is written with a newline between lines, and one at its end only if the last line is empty |
| PklLexing.UnitExactly | plugins/pkl/pkl_format.go:205-247 | the unit is a tab if some line begins with one, otherwise the least number of spaces above none that a line with text begins with, otherwise two spaces |
| PklFormat.IdempotentExactly | plugins/pkl/pkl_format.go:14-69 | formatting twice is formatting once if and only if no line is indented, tabs are used, or some line is at depth one |
| PklFormat.NotAlwaysIdempotent | plugins/pkl/pkl_format.go:14-69 | a text that moves again each time it is formatted |
| PklFormat.SplitText | plugins/pkl/pkl_format.go:175-203 | splitting the written text gives the written lines back |
| PklFormat.DepthsOfText | plugins/pkl/pkl_format.go:25-66 | depths depend on the lines' text after their leading blanks alone |
| PklFormat.UnitOfSpaced | plugins/pkl/pkl_format.go:205-247 | the unit found in text indented by spaces is its least depth times the unit it was written with |
| PklFormatter.ScanBraceDeltas | plugins/pkl/pkl_format.go:76-167 | the scan with its flags counts what lexing the line into strings, comments and braces gives |
| PklFormatter.DetectIndentUnit | plugins/pkl/pkl_format.go:205-247 | finds a tab, or the least positive leading width of a line that is not blank |
| PklFormatter.SplitLinesPreserve | plugins/pkl/pkl_format.go:175-203 | the lines of the text, a final newline starting no new one |
| PklFormatter.Format | plugins/pkl/pkl_format.go:14-69 | the loop writes the formatted text that the theorems above are about |
| MapCodec.RoundTripExactly | internal/metastructure/util/maps.go:16-58 | a map comes back from its text if and only if no key holds a colon or comma and no value a comma |
| MapCodec.TextIsKey | internal/metastructure/util/maps.go:16-39 | a map has one text whatever the map's order, and such maps with equal texts are equal |
| MapCodec.LessExactly | internal/metastructure/util/maps.go:16-39 | keys are in dictionary order: by the first character in which two differ, a text before its continuations |
| MapCodec.TextOfFew | internal/metastructure/util/maps.go:16-39 | the text of no, one and two pairs: key, colon, value, with a comma between pairs |
| MapCodec.DecodingFails | internal/metastructure/util/maps.go:43-58 | reading breaks off exactly when a piece of a nonempty text has no colon |
| MapCodec.MapToString | internal/metastructure/util/maps.go:16-39 | writes the pairs in the order of their keys |
| MapCodec.StringToMap | internal/metastructure/util/maps.go:43-58 | reads the pieces from left to right, later ones overwriting earlier ones |

## Left out

- Groups are records in a table keyed by operation URI, and links are keys into it; removed groups stay in the table, as
  they stay reachable in memory. Two groups with equal contents are told apart by their keys and not by pointers.
- UpdateGroup.NextUpdate: groups hold one update each, as Init builds them; nothing in the code adds a second one.
- Scheduler.RunTermination: bounds the steps that make progress. ExecutorRuns.RunToEnd shows that there is always a next one
  when updaters report, calls succeed and buckets fill; how long any of that takes is not modelled.
- ChangesetPipeline.Changeset.Init: the pipeline is ready to run for updates that have not been started; resuming updates
  that were in progress before a crash is not modelled.
- ResourceUpdating.FreshRun: starts without recorded progress; recovery from stored progress is not modelled. Plugin
  operators are taken to report results of the operation they were asked for, or failures that name none.
- ResourceUpdating.ResourceUpdater.RecordProgress: reports an error where properties cannot be parsed, and leaves out the
  merge of properties, native IDs and timestamps.
- PluginOperating.RetryBound: how a read's answer becomes a result and the listing of resources are not modelled.
- ResourceComparison.ReapplyIsNoChange: assumes opaque objects whose value survives normalisation with its hash; and SetOnce
  outside arrays, in a Tags array with distinct scalar keys, or in an element that nothing is dropped before or that lies
  beyond the stored array. OpaqueDocuments.DocumentChangesExactly and SetOnceLists.ListChangesExactly give the exact
  conditions; for elements that hold SetOnce deeper, or lists with equal values, only this direction is proved.
- OpaqueDocuments.ReapplyChangesExactly: opaque values inside arrays that do not survive are not covered, since arrays are
  compared as multisets and two such elements may stand in for one another.
- ResourceComparison.ProcessValue: paths are sequences of keys and indices; dots, wildcards and escapes in path strings,
  and numeric keys read as indices, are not modelled.
- Reconcile.ReconcileConverges: assumes that stack, label and type identify a resource and go with one KSUID; resources
  left because they compared equal need only compare equal, not be identical. Bringing unmanaged resources into a stack,
  patch mode, destroy and sync are not modelled.
- ReconcileGenerator.GenerateForReconcile: plans are compared as sets, since the loops may emit an operation twice and the
  changeset's map removes the copy; errors of loading or of building an update are not modelled.
- ResourceTables.CallExact: managed rows only; a stored KSUID is given and not looked up. The branch that removes
  unmanaged rows is in the model but no theorem covers it.
- ResourceTables.Datastore.LoadAllResources: LoadResource, which skips delete rows and can return an older version, is
  not part of this model, nor is the Postgres datastore.
- RateLimiting.WindowBound: the clock does not run backwards and requests are not negative.
- PklFormatter.SplitLinesPreserve: lines fit the scanner's buffer and the text is valid UTF-8.
- MapCodec.MapToString: strings are sequences of characters, ordered by code point as their UTF-8 bytes are.
- Actors, supervisors, process names, timeouts and message delivery: messages are steps, and a pending timer is a flag.
- Sorting of the started batch, logging, statistics and printing of the pipeline.
- Conflict checks between commands, persistence of commands, discovery and the synchronizer.
- The command line, renderers, HTTP client and server, plugins for particular clouds, and the package manager.
