# kube-sharding controller manager: models and proofs

Dafny models of the decision logic of the kube-sharding controller manager, one module per component, with
proofs of what the components promise over whole runs. Code that updates state step by step is modelled by
classes and loops proved equal to functions; the properties are lemmas about those functions, for every input,
every run and every failure of the calls involved. `dafny verify dfyconfig.toml` checks the project.

* `ServicePublisher`: keeping the nodes of a service registered in a name service shared with other
  publishers. A round is a step over registry, saved record and finalised flag; other publishers may edit the
  registry before the query, before the add and before the delete of each round.
* `WorkerNode`, `WorkerStateMachine`, `WorkerProgress`: the stages of a worker's allocation, its pod updates and its
  way out of service and back. A pass takes what it observes and how each call ends as input and logs every outwardly visible event.
* `PodSpecMerger`: the three-way merge of current, last declared and target, on maps and on ordered lists.
* `RecoverQuota`, `EnqueuePacing`: the sliding-window recovery limiter and the per-key enqueue pacing.
* `HealthCheck`: the layer-7 health condition over runs of probes, phase verdicts and version changes.
* `ShellExpr`: rewriting shell references to `$(N)`.
* `ContainerResources`: dividing a role's resources over containers.
* `BitMap`, `CostPool`, `StandbyHours`, `StandbyReplicas`, `StandbySupplement`: the rollingset's standby scheduling.
* `SubRollout`: choosing which sub rollingsets of a group to update, and with which ratio.

Where a promise turned out not to hold of the code, the code is modelled as it is and the exact condition is
proved:

* a round whose record cannot be stored may leave an unrecorded node (`ServicePublisher.StepNoLeak`,
  `ServicePublisher.StepRecords`);
* soft delete after an unanswered query finalises a service whose nodes stay registered
  (`ServicePublisher.SoftDeleteExit`, `ServicePublisher.SoftDeleteLeaks`);
* a record held only in the older node list, none of it registered, is never rewritten, because the status
  comparison looks at the address list alone, so the release never ends (`ServicePublisher.ReleaseFinalises`);
* the releasing stage reports a worker released although its pod was not deleted when the worker is still in
  service (`WorkerStateMachine.ReleasedWithoutDeletion`, `WorkerStateMachine.ReleasedPodRemains`);
* the recreate executor can delete the pod of a worker in service (`WorkerStateMachine.RecreatesServingExactly`,
  `WorkerStateMachine.ServingPodRecreated`); the status reset of the recreate scheduler is modelled although nothing
  outside the tests sets that scheduler type;
* list and map merge differ on a target with conflicting entries for one key (`PodSpecMerger.ListRefinesMap`), and a
  volume that is not plainly mounted is never removed (`PodSpecMerger.VolumeRemovedExactly`);
* a lone character or dollar after a final open shell reference is dropped (`ShellExpr.RewritesTemplates`,
  `ShellExpr.FinalDollarLost`);
* forgetting a key breaks its pace, and fires can go backwards (`EnqueuePacing.PaceKeptExactly`,
  `EnqueuePacing.ForgetBreaksPace`, `EnqueuePacing.FiresGoBackwards`);
* a negative adjusted standby target makes the scheduling step panic, since it is used as a slice capacity
  (`StandbySupplement.StandbyArgs.SupplementStandby`), and a negative forecast makes the hour table panic
  (`StandbyHours.CalcStandbyHours`);
* a running redundant supplied for warm or cold becomes hot, so that modes miss their targets
  (`StandbyReplicas.TakesExactly`, `StandbySupplement.RunningBecomesHot`, `StandbySupplement.ModesAtTarget`);
* a replica being released can be kept as a standby, as only the filling loop looks at that
  (`StandbySupplement.ReleasingKeptExactly`, `StandbySupplement.ReleasingStandbyKept`,
  `StandbySupplement.StayingAtTarget`);
* pausing a group divides by the replica count of each sub set, and summing up dereferences replica counts and the
  ratios of blacklisted sub sets; a blacklisted sub set without a ratio stops the whole group
  (`SubRollout.SubRollingSetsToUpdate`, `SubRollout.RolloutCompletes`).

A comment above the filling function asks for `<=` where the code has `<`; the code is followed.

## Model

| member | source | states |
|---|---|---|
| ServicePublisher.SetToSlice | controller/service-publisher/publisher.go:276-284 | the loop keeps exactly the nodes whose address is in the set, in order, duplicates included |
| ServicePublisher.SetToSliceBoth | controller/service-publisher/publisher.go:259-274 | over several lists, the first node of each address in the set and no other |
| ServicePublisher.FilterLostFailed | controller/service-publisher/publisher.go:208-219 | a node is kept if and only if it is neither lost nor failed |
| ServicePublisher.GetLocalNodes | controller/service-publisher/publisher.go:96-131 | for any workers and registry type: an address is local, or to be published, if and only if some worker qualifies it; what is published is local |
| ServicePublisher.Diff | controller/service-publisher/publisher.go:225-243 | the three node lists a sync must add, delete and update, each equal to the set expression of `NeedAdd`, `NeedDelete`, `NeedUpdate` |
| ServicePublisher.NeedSets | controller/service-publisher/publisher.go:225-243 | the diff in set terms: adds are planned local nodes not registered; deletes are registered nodes of the record that are unplanned or no longer local; updates are planned local nodes that are registered; after the health filter exactly the healthy ones are left |
| ServicePublisher.PickOnceIPs | controller/service-publisher/publisher.go:252-274 | picking once yields exactly the requested addresses that occur, each once |
| ServicePublisher.HealthyPickIPs | controller/service-publisher/publisher.go:208-219 | filtering by health commutes with picking by address |
| ServicePublisher.SyncSets | controller/service-publisher/publisher.go:133-192 | whatever calls fail, a sync adds only planned local nodes that were absent, deletes only recorded nodes it saw and never a planned one, and returns exactly what is registered (or just added) and local or recorded |
| ServicePublisher.SyncAllDone | controller/service-publisher/publisher.go:133-192 | with all calls succeeding, additions and deletions are exactly the diff, less lost and failed nodes and, under soft delete, all additions |
| ServicePublisher.SyncExact | controller/service-publisher/publisher.go:133-192 | for every soft-delete setting and every failure of calls, exactly what is added (planned healthy absent nodes, none under soft delete, marked as new) and deleted (the due nodes, soft delete or not, unless an add, update or delete that was due failed) |
| ServicePublisher.PublishTask.Sync | controller/service-publisher/publisher.go:133-192 | the imperative sync, with its early exits, leaves the shared registry and returns the list as the `SyncEffect` function says, whatever others do before the add and before the delete |
| ServicePublisher.PublishTask.SaveRemoteNodes | controller/service-publisher/controller.go:564-591 | ten attempts with reloads: the record is replaced exactly when one attempt stores it before any gives up, and an equal address list is never written |
| ServicePublisher.PublishTask.Publish | controller/service-publisher/controller.go:413-437 | query, sync and save: registry and record afterwards, and the list the later exits look at |
| ServicePublisher.PublishTask.DeleteService | controller/service-publisher/controller.go:547-562 | the service is gone once its finalizer is removed and, unless it is being deleted already, its deletion succeeds |
| ServicePublisher.SaveCovers | controller/service-publisher/controller.go:185-234 | a save leaves a record that covers the returned nodes and invents none; it is exact when the address list changed |
| ServicePublisher.PublishTask.SyncRound | controller/service-publisher/controller.go:396-467 | one round of the publish task moves registry, record and finalised flag exactly as `Step` does, with every error exit, a failing finalizer or service deletion included |
| ServicePublisher.StepNoLeak | controller/service-publisher/controller.go:409-460 | a round keeps every owned registered node on record if and only if it stores the record or everything it added was already recorded |
| ServicePublisher.RunNoLeak | controller/service-publisher/controller.go:409-460 | over any run whose records are stored, whatever calls fail and whatever other publishers do: every address this publisher added and that is still registered is on record |
| ServicePublisher.StepRecords | controller/service-publisher/controller.go:409-460 | for a record with holes: only an unsaved round opens one, by adding the address, and a hole still registered afterwards is closed if and only if the round was answered and saved and the address was local |
| ServicePublisher.HoleOrigin | controller/service-publisher/controller.go:409-460 | over any run, saved or not, every owned address missing from the record was missing at the start or added by an unsaved round |
| ServicePublisher.StepFinalisesClean | controller/service-publisher/controller.go:458-460 | a round that finalises on the releasing path, or on the soft-delete path after an answered query, leaves no owned node registered |
| ServicePublisher.FinalisedClean | controller/service-publisher/controller.go:458-464 | over whole runs, a finalised service has no owned node left in the registry |
| ServicePublisher.FinalisedExactly | controller/service-publisher/controller.go:396-467 | when exactly a round finalises a service, over the registry, the record and what the round is given |
| ServicePublisher.SoftDeleteExit | controller/service-publisher/controller.go:462-464 | the soft-delete exit leaves owned nodes behind if and only if the registry gave no answer in that round and still held some |
| ServicePublisher.SoftDeleteLeaks | controller/service-publisher/controller.go:593-608 | a concrete round: a query error during soft delete finalises a service whose node stays registered |
| ServicePublisher.ForeignUntouched | controller/service-publisher/publisher.go:225-256 | a round neither adds, deletes nor records an address that is neither local nor on record |
| ServicePublisher.IsolatedStep | controller/service-publisher/publisher.go:133-192 | for such an address a round leaves the registry as the other publishers' edits alone would |
| ServicePublisher.Isolation | controller/service-publisher/publisher.go:133-243 | over any run, an address that is never local and not initially recorded is registered or not exactly as in the run of the others alone |
| ServicePublisher.CalmStep | controller/service-publisher/publisher.go:133-192 | the registry and record after one undisturbed round, soft delete or not, as exact set equations |
| ServicePublisher.FirstRound | controller/service-publisher/publisher.go:133-192 | after one round the goal is reached if and only if every unwanted local node in the registry was on record |
| ServicePublisher.LaterRound | controller/service-publisher/publisher.go:133-192 | every later round only deletes unwanted local nodes and keeps the record caught up |
| ServicePublisher.Converges | controller/service-publisher/publisher.go:133-243 | from any start, two or more undisturbed rounds leave exactly the goal registered; one round suffices if and only if every unwanted local node was recorded |
| ServicePublisher.ConvergesToPlan | controller/service-publisher/publisher.go:133-243 | with no lost or failed node, after two rounds the registered local nodes are exactly the plan |
| ServicePublisher.ReleaseStep | controller/service-publisher/controller.go:396-467 | one undisturbed releasing round, soft delete or not: what is deleted, recorded and when it finalises, exactly |
| ServicePublisher.StuckForever | controller/service-publisher/controller.go:185-234 | a record held only in the older node list, none of it registered, is never rewritten and the service never finalised, for any number of rounds, while the soft-delete exit is closed |
| ServicePublisher.ReleaseFinalises | controller/service-publisher/controller.go:458-460 | an undisturbed release, soft delete or not, finalises the service, and within three rounds, if and only if its record is not such a stuck list or the soft-delete exit is open |
| WorkerStateMachine.AtMostTwoRuns | controller/worker/worker_processor.go:344-362 | for every worker, feature gate, executor and scheduler type, a retry of the assigned stage's loop body is never followed by another retry |
| WorkerStateMachine.PlanKeepsOffline | controller/worker/worker_processor.go:381-419 | planning never brings an offline worker back while it is restarting, with either executor and with the status reset of the recreate scheduler |
| WorkerStateMachine.RestartWaits | controller/worker/allocator.go:593-608 | the update waits exactly when the process changes where graceful restart applies and the worker is in service |
| WorkerStateMachine.SyncPodSpecSafe | controller/worker/allocator.go:546-650 | every update or recreation of a spec sync is cleared: a graceful assigned mismatched worker is unpublished, and a process change where graceful restart applies finds it unavailable or offline; only a recreation changes stage, conditions, offline mark or entity |
| WorkerStateMachine.UpdatePodSafe | controller/worker/executor.go:115-272 | an update by either executor is one safe event, an update or a recreation of another version, and only a recreation starts the worker over |
| WorkerStateMachine.AssignedStageSafe | controller/worker/worker_processor.go:306-379 | on every path of the assigned stage, with either executor: a graceful mismatched worker reaches the spec sync only unpublished and updates and recreations are cleared; where nothing starts workers over the stage only loses or releases the worker |
| WorkerStateMachine.RouteSafe | controller/worker/worker_processor.go:239-288 | the unassigned stage only places, releases or safely updates the worker; it becomes assigned with exactly one placement event |
| WorkerStateMachine.OffliningStage | controller/worker/worker_processor.go:221-230 | a worker leaves the offlining stage only offlined or irrecoverable |
| WorkerStateMachine.ReleasingStage | controller/worker/worker_processor.go:202-219 | the releasing stage deletes the pod at most once and safely, and ends in releasing or released |
| WorkerStateMachine.PassSafe | controller/worker/worker_processor.go:67-144 | every event of a whole pass is safe with either executor; where nothing starts workers over the status never moves back |
| WorkerStateMachine.RunSafe | controller/worker/worker_processor.go:67-144 | over every run of passes all events are safe; where nothing starts workers over the status only moves forward and released is absorbing |
| WorkerStateMachine.DeletedAfterOffline | controller/worker/worker_processor.go:202-288 | over every in-place run of a worker that stays graceful, the pod of a worker once assigned is deleted only after it left the offlining stage |
| WorkerStateMachine.ReleasedWithoutDeletion | controller/worker/allocator.go:202-238 | the releasing stage reports a graceful worker released either way; the pod was deleted if and only if the service conditions make it unavailable |
| WorkerStateMachine.ReleasedPodRemains | controller/worker/worker_processor.go:202-230 | a concrete pass: a failed worker that is still published is released with its pod left running |
| WorkerStateMachine.OffliningOutcome | controller/worker/worker_processor.go:221-230 | a worker marked offline leaves the offlining stage if and only if no graceful service is published or it has failed |
| WorkerStateMachine.ReleaseInOnePass | controller/worker/worker_processor.go:67-144 | a graceful worker with a bound pod that is to be released is released in one pass if and only if no graceful service is published or it has failed, and otherwise stays offlining; its pod is deleted if and only if moreover no graceful service is true; a worker that is started over instead is released or unassigned without deletion |
| WorkerStateMachine.RecreatesServingExactly | controller/worker/executor.go:237-272 | the recreate executor deletes the pod of a worker in service if and only if the guards of `RecreatesServing` hold; never for a process change where graceful restart applies |
| WorkerStateMachine.UpdateRecreates | controller/worker/allocator.go:589-650 | the same for the part of the sync after the resource step |
| WorkerStateMachine.ServingPodRecreated | controller/worker/executor.go:237-264 | a concrete sync: a published, available worker without grace whose process matches has its pod deleted and its status reset although graceful restart applies |
| WorkerStateMachine.StartOverPass | controller/worker/allocator.go:693-699 | the pass of a worker the recreate scheduler starts over: unassigned, or released at once if it is to be deleted, without a deletion |
| WorkerStateMachine.PodDeletedUnderWorker | controller/worker/allocator.go:686-699 | an assigned worker whose pod is being deleted is started over by the recreate scheduler and lost with any other |
| WorkerStateMachine.Processor.constructor | controller/worker/worker_processor.go:165-194 | the machine starts from the stored status with what the pass observes |
| WorkerStateMachine.Processor.Assigned | controller/worker/worker_processor.go:306-379 | the jump back as a real loop with a termination measure: the new state is that of at most two body runs |
| WorkerStateMachine.Processor.Body | controller/worker/worker_processor.go:344-362 | one run of the loop body: graceful update, plan, and the decision to stop, retry or go on |
| WorkerStateMachine.Processor.PlanStep | controller/worker/worker_processor.go:381-419 | version rollback, inner match, spec sync and status sync in place |
| WorkerStateMachine.Processor.Tail | controller/worker/worker_processor.go:363-379 | health and service processing after the plan is ready |
| WorkerStateMachine.Processor.SyncSpec | controller/worker/allocator.go:546-650 | the spec sync in place, with its early returns and errors, equal to the function whose updates `WorkerProgress.SyncInPlace` pins |
| WorkerStateMachine.Processor.Update | controller/worker/executor.go:115-272 | the two executors' pod updates in place |
| WorkerStateMachine.Processor.Delete | controller/worker/allocator.go:202-238 | deletion in place; it reports success without deleting when the worker is not out of service |
| WorkerStateMachine.Processor.UnAssigned | controller/worker/worker_processor.go:239-288 | the unassigned stage in place |
| WorkerStateMachine.Processor.Releasing | controller/worker/worker_processor.go:202-219 | the releasing stage in place |
| WorkerStateMachine.Processor.Offlining | controller/worker/worker_processor.go:221-230 | the offlining stage in place |
| WorkerStateMachine.Processor.Stages | controller/worker/worker_processor.go:67-144 | a pass runs the stages in order, each on the status the previous one left |
| WorkerProgress.SyncInPlace | controller/worker/allocator.go:546-650 | a spec sync with the in-place executor issues exactly one pod update if and only if the guards of `Issues`, over the fields of worker and pass, hold; and the error, the held pod, the reclaim mark and the traffic fields afterwards for every outcome |
| WorkerProgress.SyncRecreate | controller/worker/executor.go:237-272 | the same for the recreate executor, which recreates if and only if moreover the version differs and the spec changed |
| WorkerProgress.UpdateInPlace | controller/worker/executor.go:115-152 | how an in-place update ends when applied, rejected or broken |
| WorkerProgress.DiffersExactly | pkg/apis/carbon/v1/helpers.go:702-762 | version, resource version and mode mismatch over the fields |
| WorkerProgress.ServiceExactly | pkg/apis/carbon/v1/service_publisher.go:295-322 | the service status over the conditions and the offline mark |
| WorkerProgress.GateHolds | controller/worker/worker_processor.go:482-494 | a graceful worker that differs is marked offline and passes exactly when no graceful service is published |
| WorkerProgress.GateOpens | controller/worker/worker_processor.go:482-509 | any other worker passes, its offline mark following the spec unless it is graceful or warms up |
| WorkerProgress.TakenOffline | controller/worker/worker_processor.go:344-350 | a graceful worker that differs and is published is marked offline and nothing else happens in the stage |
| WorkerProgress.RestartTakenOffline | controller/worker/worker_processor.go:344-362 | a serving worker without grace is taken offline in the very pass that finds its process out of date, through the second run of the loop |
| WorkerProgress.UpdatedOffline | controller/worker/worker_processor.go:344-362 | once unpublished, the stage issues exactly the update that is due, without waiting |
| WorkerProgress.StaysOffline | controller/worker/worker_processor.go:381-419 | a worker whose version has not settled or whose mode differs is not put back into service |
| WorkerProgress.TailExactly | controller/worker/worker_processor.go:363-379 | health and service processing: the traffic of a ready worker becomes as the spec says, and the restart is over once it is served |
| WorkerProgress.BackInService | controller/worker/worker_processor.go:306-379 | a graceful worker that is up to date, healthy and ready follows its spec: an online one comes back into service |
| WorkerProgress.StatusExactly | controller/worker/allocator.go:708-830 | what a status sync takes over from a bound pod |
| WorkerProgress.AllocExactly | controller/worker/allocator.go:660-685 | the alloc status without a pod or with an unbound one |
| WorkerProgress.PlanShortcuts | controller/worker/worker_processor.go:381-395 | a smaller generation forgets the version, the same hash takes it as reached, neither touching the pod |
| WorkerProgress.UnassignedOutcome | controller/worker/worker_processor.go:245-300 | where the unassigned stage ends and when a pod is created, exactly |
| WorkerProgress.ServicesTakenOver | controller/worker/worker_processor.go:554-577 | when the services are taken over, and that nothing happens when they cannot be read |
| WorkerProgress.LostOutcome | controller/worker/worker_processor.go:232-237 | where a lost worker, one to be released and one without its entity go |
| WorkerProgress.ReleasingOutcome | controller/worker/worker_processor.go:202-219 | when the releasing stage ends in released and when it deletes the pod, exactly |
| PodSpecMerger.MergeGenericKVs | controller/util/allocator_podspec_merger.go:415-435 | the two loops compute the three-way map merge |
| PodSpecMerger.MergeSection | controller/util/allocator_podspec_merger.go:227-246 | a keyed section after one reconcile, with the recorded keys given apart from the target's |
| PodSpecMerger.ReconcileAtKey | controller/util/allocator_podspec_merger.go:227-246 | per key: declared keys take the target's value, keys recorded last time and not declared now are gone, other keys survive if and only if the record was readable |
| PodSpecMerger.RunAtKey | controller/util/allocator_podspec_merger.go:227-246 | over any sequence of reconciles and outside edits, each key evolves by a two-field automaton of its own |
| PodSpecMerger.OthersKeysSurvive | controller/util/allocator_podspec_merger.go:415-435 | over any such sequence, a key no reconcile declares or records holds exactly what the edits of others alone would have made it |
| PodSpecMerger.ReconcileAfterEdits | controller/util/allocator_podspec_merger.go:227-246 | two reconciles with any edits between: the new target holds, what the old one recorded and the new one does not declare is gone, and what it did not record is as the edits left it |
| PodSpecMerger.StablePatchSlice | controller/util/allocator_podspec_merger.go:531-561 | the nested loops delete, replace in place and append as the list specification says |
| PodSpecMerger.MergeSlice | controller/util/allocator_podspec_merger.go:438-447 | the ordered three-way list merge |
| PodSpecMerger.ListRefinesMap | controller/util/allocator_podspec_merger.go:438-447 | for every current list, the list merge read as a map equals the map merge if and only if the target's first and last entries of each key agree; so it does for unique keys |
| PodSpecMerger.ListOrder | controller/util/allocator_podspec_merger.go:531-561 | surviving current entries keep their order and new target entries follow in target order, for any current list |
| PodSpecMerger.MergeAgain | controller/util/allocator_podspec_merger.go:438-447 | merging the result again with the target's own keys as last declared changes nothing |
| PodSpecMerger.DuplicateTarget | controller/util/allocator_podspec_merger.go:531-561 | a concrete target with a key twice on which the two merges differ |
| PodSpecMerger.RunListRefines | controller/util/allocator_podspec_merger.go:248-327 | over any sequence of reconciles with unique target keys and outside edits, a list section read as a map goes through exactly what a keyed section does |
| PodSpecMerger.VolMntDeclaredKey | controller/util/allocator_podspec_merger.go:56-70 | the loop over the mounts finds the key of the first mount of the volume |
| PodSpecMerger.MountKeyExactly | controller/util/allocator_podspec_merger.go:56-70 | the recorded key over the mounts' fields: the volume's name for a plain first mount, the signature for an injected one, nothing without a mount |
| PodSpecMerger.VolumeRemovedExactly | controller/util/allocator_podspec_merger.go:102-107 | a volume dropped from the target is removed by the next reconcile if and only if its first mount was a plain one when it was declared; an unmounted one stays |
| RecoverQuota.TimeRecoverQuota.Require | controller/worker/recover_quota.go:62-100 | the loop over the list with a clock read at each look: exact result and list for every combination of limit and window, absent ones included |
| RecoverQuota.RunTracks | controller/worker/recover_quota.go:62-100 | in every run the list is the end of the grant history, everything dropped is out of the window, and any limit+1 grants span more than the window |
| RecoverQuota.WindowNeverExceeded | controller/worker/recover_quota.go:62-100 | in every run, every closed interval of the window's length holds at most the limit of grants |
| RecoverQuota.RefusesExactly | controller/worker/recover_quota.go:62-100 | a call is granted if and only if fewer than the limit were granted in the window ending at its look |
| EnqueuePacing.Pacer.WaitTime | controller/controller.go:181-206 | the returned wait and the new record, for every key and time |
| EnqueuePacing.Pacer.DeleteResource | controller/controller.go:162-175 | forgets exactly the key |
| EnqueuePacing.WaitBounded | controller/controller.go:181-206 | in every run, no wait is negative or above the delay, whatever other keys and resets do |
| EnqueuePacing.SuccessiveFires | controller/controller.go:181-206 | two successive requests of a key fire together or at least a delay apart, in order |
| EnqueuePacing.AnyTwoFires | controller/controller.go:181-206 | so do any two requests of a key that is not forgotten between them |
| EnqueuePacing.FiresEarliest | controller/controller.go:181-206 | no needless wait: a request joins a fire still ahead or takes the earliest instant a delay after the previous one (a fire due at this very moment counts as past) |
| EnqueuePacing.FirstFiresAtOnce | controller/controller.go:162-206 | the first request of a key, or the first after a reset, fires at once |
| EnqueuePacing.RecordIsFire | controller/controller.go:181-206 | a key's record is the instant its latest request fires |
| EnqueuePacing.ForgetBreaksPace | controller/controller.go:162-206 | for every delay of at least 2, a run with a reset in which two fires are closer than the delay |
| EnqueuePacing.PaceKeptExactly | controller/controller.go:162-206 | two successive requests of a key keep the pace if and only if the key was not reset between them, or the second comes exactly when the first fires, or at least a delay later |
| EnqueuePacing.FiresGoBackwards | controller/controller.go:162-206 | a concrete run: after a reset a request fires before an earlier one that is still pending |
| HealthCheck.Checker.DoCheck | controller/healthcheck/defaulthealthchecker.go:40-95 | one check moves the stored condition by a probe or by what the worker's phase declares, then applies the version change; the runs of it are pinned by the lemmas below |
| HealthCheck.NeedHealthCheck | controller/healthcheck/defaulthealthchecker.go:55-95 | when a worker is probed, and otherwise what its phase says, exactly |
| HealthCheck.FailingFrom | controller/healthcheck/lv7healthchecker.go:151-255 | from any condition, failures alone: an alive or unknown worker keeps its status and counts them exactly below the threshold, then is lost with exact count or dead; a lost one dies or stays; a dead one stays |
| HealthCheck.FailingSinceSuccess | controller/healthcheck/lv7healthchecker.go:151-255 | in any run, from its last successful probe: the status holds exactly while the failures since are below the threshold, with them as the count |
| HealthCheck.VersionChangeExactly | controller/healthcheck/defaulthealthchecker.go:138-144 | a version change makes the condition unknown and changes nothing else |
| HealthCheck.DeclaredDeadHolds | controller/healthcheck/defaulthealthchecker.go:77-83 | a worker declared dead stays so until a probe succeeds or a phase says otherwise |
| HealthCheck.CountWithinStreak | controller/healthcheck/lv7healthchecker.go:151-255 | in every run of probes, phase verdicts and version changes the stored count never exceeds the failure streak, and lost, or dead by probes, implies a streak of at least the threshold |
| HealthCheck.LostHistory | controller/healthcheck/lv7healthchecker.go:151-229 | a lost worker became lost at a failed probe whose time is stored, and no probe succeeded since |
| HealthCheck.DeadHistory | controller/healthcheck/lv7healthchecker.go:151-229 | a worker dead by its probes became lost at some probe and dead at a later failed one, at least the timeout after it, with every probe between them and since failed |
| HealthCheck.DeadExactlyAfterTimeout | controller/healthcheck/lv7healthchecker.go:151-229 | a worker that became lost and, with its version unchanged since, only failed is dead if and only if some later probe failed at least the timeout after, and lost until then |
| HealthCheck.SuccessRestores | controller/healthcheck/defaulthealthchecker.go:138-144 | a success with the version unchanged restores alive with count zero from any state |
| HealthCheck.LostExactlyAtThreshold | controller/healthcheck/lv7healthchecker.go:151-255 | under failures alone the status stays unknown exactly below the threshold |
| ShellExpr.CorrectShellExpr | common/env.go:76-126 | the byte loop with its start position equals a scan, for every input |
| ShellExpr.Byte | common/env.go:85-122 | one iteration: what is written and how the scan state moves |
| ShellExpr.RewritesTemplates | common/env.go:76-126 | every template of literals and references is rewritten token by token with each reference as `$(N)`, if and only if it does not end in a lone character after an open reference; otherwise exactly that character is lost |
| ShellExpr.RewritingTwice | common/env.go:76-126 | rewriting again changes nothing, for every template |
| ShellExpr.LoneCharacterLost | common/env.go:76-126 | `$A:` becomes `$(A)` |
| ShellExpr.FinalDollarStays | common/env.go:76-126 | a dollar at the end of a literal stays |
| ShellExpr.FinalDollarLost | common/env.go:76-126 | a dollar at the end of an open reference is lost |
| ContainerResources.GetRemainRequirements | transfer/container_spec_transfer.go:348-369 | fails if and only if some process overdraws a limit in order; otherwise the limits less what is named |
| ContainerResources.Subtract | transfer/container_spec_transfer.go:354-366 | one process' amounts: an error exactly on an overdraft, otherwise the difference at every key |
| ContainerResources.GetResourceRequirements | transfer/container_spec_transfer.go:371-412 | the limits of one container, with the counting loop over the processes |
| ContainerResources.SplitResource | transfer/container_spec_transfer.go:414-429 | cpu and memory divided, the remainder to the last, everything else untouched |
| ContainerResources.ContainerLimits | transfer/container_spec_transfer.go:245-339 | the limits of all containers, or an error exactly on an overdraft |
| ContainerResources.PartialTotal | transfer/container_spec_transfer.go:371-429 | the running sum over the containers seen so far |
| ContainerResources.Conserves | transfer/container_spec_transfer.go:348-429 | with an unspecified process, cpu and memory sum exactly to the role's limit |
| ContainerResources.ConservesExactly | transfer/container_spec_transfer.go:348-429 | in general they do if and only if some process is unspecified or the named amounts take it all |
| ContainerResources.SharesFair | transfer/container_spec_transfer.go:414-429 | shares are non-negative and differ by less than their number |
| ContainerResources.ContainerGets | transfer/container_spec_transfer.go:371-429 | what each container gets of any resource: what it names; a share of cpu and memory, the remainder to the last open one; everything else only the first container, if open |
| ContainerResources.RestNonNegative | transfer/container_spec_transfer.go:348-369 | whatever fits leaves a non-negative rest |
| BitMap.BitMap.constructor | controller/util/bitmap.go:28-31 | an empty set of numbers |
| BitMap.BitMap.Add | controller/util/bitmap.go:33-37 | adds exactly the number to the represented set |
| BitMap.BitMap.IsExist | controller/util/bitmap.go:39-43 | membership in the represented set |
| BitMap.BitMap.Remove | controller/util/bitmap.go:45-49 | removes exactly the number |
| CostPool.PoolState.GetNextCost | controller/rollingset/scheduler.go:247-261 | the search over the bitmap returns the cost and leaves the state that `Next` gives on the represented set |
| CostPool.PoolState.FindFree | controller/rollingset/scheduler.go:253-259 | the loop over the bitmap finds the highest free offset at or below the index, or none |
| CostPool.NextTakes | controller/rollingset/scheduler.go:247-261 | a call takes one free offset out of the available ones, the next below the minimum first and then the highest, or with none left changes nothing and repeats the minimum |
| CostPool.NeverRepeats | controller/rollingset/scheduler.go:247-261 | as many calls as there are available offsets return pairwise different costs of the pool's range, each free before |
| CostPool.RepeatsWhenExhausted | controller/rollingset/scheduler.go:247-261 | from then on every call returns the same cost and changes nothing |
| StandbyHours.CalcStandbyHours | controller/rollingset/scheduler.go:194-215 | skipped exactly without fixed replicas, out of range exactly on a negative forecast; otherwise each clock hour is visited once and a replica's row holds an hour if and only if the forecast there lies strictly between 0 and the replica count and does not reach the replica; rows are nested and at such an hour exactly the first forecast-many stay on duty |
| StandbyHours.FillNext | controller/rollingset/scheduler.go:205-215 | one hour extends a correct table to a correct table |
| StandbySupplement.CountsAreCeilings | controller/rollingset/scheduler.go:809-823 | hot is the least integer covering its ratio; warm is too as far as hot leaves room; the rest is cold, or with inactive ratio 100 the inactive target is the whole count |
| StandbySupplement.TargetsSum | controller/rollingset/scheduler.go:809-823 | the four targets sum to the standby count if and only if the inactive ratio is not 100 or hot and warm are zero; also in terms of the ratios |
| StandbySupplement.TargetsNonNegative | controller/rollingset/scheduler.go:809-823 | no target is negative for ratios in range |
| StandbySupplement.KeepIds | controller/rollingset/scheduler.go:900-913 | the keep loop splits the redundants without loss |
| StandbySupplement.KeepBounds | controller/rollingset/scheduler.go:900-913 | only current-version standbys are kept, no target or the total is exceeded, and none is turned away while there is room for its mode |
| StandbySupplement.KeptExactly | controller/rollingset/scheduler.go:900-913 | exactly the replicas are kept that qualify while fewer qualified before them than their mode's target and than the total; being released plays no part |
| StandbySupplement.ReleasingKeptExactly | controller/rollingset/scheduler.go:900-913 | a replica being released is kept as a standby if and only if one is among those |
| StandbySupplement.ReleasingStandbyKept | controller/rollingset/scheduler.go:900-913 | a concrete replica being released that is kept |
| StandbySupplement.TakeIds | controller/rollingset/scheduler.go:963-974 | taking redundants for a shortfall splits them without loss |
| StandbySupplement.TakeCounts | controller/rollingset/scheduler.go:963-974 | what is taken is the front of the usable redundants, as many as are wanted, none being released, and the rest of them is left |
| StandbyReplicas.FreeConverts | controller/rollingset/scheduler.go:995-1024 | a replica takes every standby mode it is given if and only if no silence, federation rule or unfinished cold update holds it back |
| StandbyReplicas.TakesExactly | controller/rollingset/scheduler.go:1005-1024 | a replica ends in the mode it is given if and only if `Takes`: a running one only hot and inactive, a silent one only what it has, any other all but, under the rules for them, cold |
| StandbyReplicas.ConvertBecomes | pkg/apis/carbon/v1/helpers.go:3206-3224 | the mode a converted replica ends in, in closed form |
| StandbyReplicas.RenewsExactly | pkg/apis/carbon/v1/helpers.go:3400-3419 | a converted replica is at the latest version unless an unfinished resource update keeps it from going cold |
| StandbyReplicas.ConvertMarks | pkg/apis/carbon/v1/helpers.go:3206-3245 | the silence mark, its time and the resource update after a conversion |
| StandbyReplicas.StaysHot | pkg/apis/carbon/v1/helpers.go:3206-3268 | a running replica stays hot through repeated conversions while its silence lasts |
| StandbyReplicas.YieldAll | controller/rollingset/scheduler.go:995-1024 | all of a list end in the mode they are given if and only if each takes it |
| StandbySupplement.SupplyGrows | controller/rollingset/scheduler.go:958-991 | filling a shortfall loses no replica, invents none but those recorded, and creates only when no usable redundant is left |
| StandbySupplement.FillSpares | controller/rollingset/scheduler.go:958-991 | over all modes, kept standbys are untouched and no replica being released is converted |
| StandbySupplement.FillCounts | controller/rollingset/scheduler.go:926-946 | what each mode ends up with, for any redundants: those kept, those that become it whatever order they were given to, and those created for it |
| StandbySupplement.FillIs | controller/rollingset/scheduler.go:926-946 | the filling in closed form: each order gets the next usable redundants and then new replicas |
| StandbySupplement.SlotInMode | controller/rollingset/scheduler.go:958-1024 | everything supplied for a mode is in that mode if and only if each redundant given to it takes it |
| StandbySupplement.RunningBecomesHot | controller/rollingset/scheduler.go:995-1013 | a concrete running redundant supplied for cold that becomes a hot standby |
| StandbySupplement.ReceivedExactly | controller/rollingset/scheduler.go:975-991 | everything asked for is received if and only if each shortfall beyond the remaining redundants fits one batch of 4000 |
| StandbySupplement.BatchCovers | controller/rollingset/util.go:95-96 | shortfalls up to 4000 are always covered, and a larger one is not without redundants |
| StandbySupplement.Conservation | controller/rollingset/scheduler.go:883-949 | old redundants plus created replicas equal, as a multiset of identities, standbys plus remaining redundants; creation happens only when no usable redundant remains |
| StandbySupplement.NoReplicaTwice | controller/rollingset/scheduler.go:883-949 | no replica ends up in two places or twice in one |
| StandbySupplement.SizeAtTarget | controller/rollingset/scheduler.go:883-949 | the standbys are never more than the targets add up to, and exactly as many if and only if every shortfall is coverable, whatever the replicas' modes end up as |
| StandbySupplement.ModesAtTarget | controller/rollingset/scheduler.go:883-949 | for any redundants, each mode is exactly at its target if and only if no target is negative, every shortfall is coverable, and as many redundants end in each mode as were given to it; the last holds where each takes the mode it is given |
| StandbySupplement.StayingAtTarget | controller/rollingset/scheduler.go:883-949 | not counting standbys being released, each mode is at its target if and only if it is counting them and none was kept |
| StandbySupplement.StandbysUpToDate | controller/rollingset/scheduler.go:883-949 | every standby is at the latest version if and only if each redundant is renewed by the order it is given to |
| StandbySupplement.StandbyArgs.TakeUsable | controller/rollingset/scheduler.go:963-974 | the loop takes the first usable redundants, up to the count, and leaves the others in order |
| StandbySupplement.StandbyArgs.Create | controller/rollingset/scheduler.go:975-988 | the creation loop adds fresh replicas, each appended to the replica set |
| StandbySupplement.StandbyArgs.SupplementNodes | controller/rollingset/scheduler.go:958-1043 | the take, create and convert loops change the lists exactly as `Supply` says |
| StandbySupplement.StandbyArgs.KeepStandbys | controller/rollingset/scheduler.go:900-913 | the keep loop and its per-mode counts |
| StandbySupplement.StandbyArgs.FillModes | controller/rollingset/scheduler.go:919-947 | the four modes filled in order |
| StandbySupplement.StandbyArgs.SupplementStandby | controller/rollingset/scheduler.go:883-949 | the whole step: it fails if and only if the active replicas overshoot the plan by more than the standbys, and then nothing changes; otherwise, with targets that share out the standbys, active and standby replicas together are exactly as planned if and only if every shortfall is coverable |
| SubRollout.MostSpecific | controller/rollingset/group_rollingset.go:263-288 | the ratio is that of the most specific pattern present, and 0 when there is none |
| SubRollout.AsksExactly | controller/rollingset/group_rollingset.go:263-288 | the ratio asked for, over the group's settings: none without ratios or for a blacklisted sub set, else that of the first pattern present |
| SubRollout.WantedExactly | controller/rollingset/group_rollingset.go:226-255 | when a sub set is to be updated and when the step crashes, over the fields and the ratio asked for |
| SubRollout.StoredExactly | controller/rollingset/group_rollingset.go:175-183 | what is stored, over the fields and the ratio asked for; while pausing the ratio is the updated share rounded down |
| SubRollout.RollingExactly | controller/rollingset/group_rollingset.go:256-258 | when a sub set counts as rolling, over the fields |
| SubRollout.NothingAskedNothingStored | controller/rollingset/group_rollingset.go:264-266 | over any run of unpaused rounds of a group without ratios, a sub set that has a version and a ratio keeps both |
| SubRollout.SplitInTwo | controller/rollingset/group_rollingset.go:279-283 | the pattern `a.*` is looked up exactly for keys `a.b` without a further dot |
| SubRollout.ComputeSubRollingSet | controller/rollingset/group_rollingset.go:226-261 | crashes if and only if a sub set being paused has zero replicas; otherwise the positions in rolling and to update, in order |
| SubRollout.TakeWithin | controller/rollingset/group_rollingset.go:213-217 | the budget loop chooses the shortest prefix whose cost exceeds the allowance, or everything |
| SubRollout.SubRollingSetsToUpdate | controller/rollingset/group_rollingset.go:185-225 | the whole choice: it panics if and only if a sub set being paused has no replicas, a replica count is missing or a blacklisted sub set has no ratio; otherwise nothing when the allowed count is unreadable, everything while paused, and else by budget |
| SubRollout.SumReplicas | controller/rollingset/group_rollingset.go:290-311 | the replica total, failing exactly on a missing count or a blacklisted sub set without a ratio |
| SubRollout.MissingReplicas | controller/rollingset/group_rollingset.go:295-295 | a concrete unpaused group that panics although the first step does not |
| SubRollout.BlacklistedWithoutRatio | controller/rollingset/group_rollingset.go:297-300 | a concrete blacklisted sub set without a ratio on which the group panics |
| SubRollout.ShortestIsUnique | controller/rollingset/group_rollingset.go:212-217 | that prefix is unique, empty for a negative allowance, and only its last element can overshoot |
| SubRollout.DropsExactly | controller/rollingset/group_rollingset.go:237-255 | a round lowers the saved ratio of a sub set at the group's version if and only if it is being paused below it, or the ratio asked for is lower and negative, or lower with rollback on, or zero with an empty version |
| SubRollout.RatioNeverDrops | controller/rollingset/group_rollingset.go:226-261 | over any run with the version fixed, no pause, no rollback and non-negative but changing ratios, a sub set that has the version never loses ratio |
| SubRollout.NextWithinBudget | controller/rollingset/group_rollingset.go:205-217 | a round leaves in flight at most what was, or at most the allowed count plus one sub set's cost, even if storing stops half way |
| SubRollout.RolloutWithinBudget | controller/rollingset/group_rollingset.go:205-217 | the same over any run of rounds with the group unchanged |
| SubRollout.SavedIsDone | controller/rollingset/group_rollingset.go:139-183 | a stored sub set wants no further update, unless the group has no version |
| SubRollout.NextProgresses | controller/rollingset/group_rollingset.go:185-225 | a round that does not panic, whose updates are stored and complete, leaves nothing rolling and, if nothing was rolling, strictly fewer sub sets wanting an update |
| SubRollout.RolloutCompletes | controller/rollingset/group_rollingset.go:185-261 | over any run of rounds that finish, one more than there are sub sets, with every replica count known and any non-negative allowance: all sub sets with a ratio to reach are stored with it at the group's version if and only if no blacklisted one lacks a ratio, or all were from the start |
| SubRollout.BlockedForever | controller/rollingset/group_rollingset.go:297-300 | a blacklisted sub set without a ratio stops the storing of every sub set for any number of rounds, whatever else changes |
| SubRollout.PanicStoresNothing | controller/rollingset/group_rollingset.go:185-225 | a round that panics stores nothing |

## Left out

- ServicePublisher.StepNoLeak: ownership is by address; a node that another publisher registers again under an address this one added counts as that publisher's only after it was removed once.
- ServicePublisher.PublishTask.SyncRound: registry calls are atomic; a call that fails half way is not modelled, nor are ports and weights of nodes, mock pods, worker condition updates and metrics. Which calls fail, whether workers could be updated and whether their conditions are gone are inputs.
- ServicePublisher.PublishTask.SaveRemoteNodes: the reason and message fields of the status, which the comparison also looks at, are taken as unchanged.
- WorkerStateMachine.RunSafe: the forward-only part is for passes where neither the executor nor the scheduler starts workers over, since those reset the status on purpose. Feature gates are fixed within a run. Warm-up timers, health readiness and pod comparison results are booleans given to each pass.
- WorkerStateMachine.Processor.SyncSpec: generating, merging and simplifying the pod spec, and the reserved-resource handling of deletion, are not part of the model; their success or failure is an input.
- PodSpecMerger.MergeSection: the recorded keys are an input, as they follow the target's keys in different ways for each section, and so is their JSON annotation; an unreadable annotation is the `None` record.
- RecoverQuota.TimeRecoverQuota.Require: the lock is the atomicity of a call. The parallel quota, a set of holders with a size bound, is not modelled.
- EnqueuePacing.WaitBounded: the delay is the same for all keys and calls; the work queue itself is not modelled.
- HealthCheck.Checker.DoCheck: HTTP and addresses are inputs; metadata and timestamps that do not influence the status are dropped.
- ShellExpr.RewritesTemplates: templates only; malformed inputs such as unclosed brackets followed by ordinary text are covered by `ShellExpr.CorrectShellExpr` (equality with the scan) alone.
- ContainerResources.ContainerLimits: limits only; requests are split by the same code, and everything else of a container is dropped. Quantities are integers in milli-units.
- BitMap.BitMap.Add: a number beyond the array is excluded, where the original panics.
- CostPool.PoolState.GetNextCost: offsets beyond the bitmap are excluded as above; `setCostAndPool`, which nothing calls, is not modelled.
- StandbyHours.CalcStandbyHours: sorting the replicas, and reading and writing the hours as JSON, are not modelled.
- StandbySupplement.StandbyArgs.SupplementStandby: the sort of the redundants is an arbitrary order of the input; percentages are exact integer ceilings instead of floating point; gang replicas, resource pool annotations, the list of replicas to be written back and metrics are not modelled. Creating a replica template never fails in the code. Integers are unbounded.
- SubRollout.SubRollingSetsToUpdate: how the allowed count follows from the total, and each sub set's cost, come from code outside the model; the buffer rollingset, the global ratio and the group's status are not modelled.
- SubRollout.RolloutWithinBudget: assumes costs are not negative and that a finished sub set that is not touched stays finished.
- Worker adjuster (swap and backup), spec and status translation, group scheduling and the rolling algorithm, informers, clients, proxies, flags and logging are not part of this model.
- Integer widths: counters and times are unbounded integers throughout, except the 64-bit range of generation numbers in versions.
