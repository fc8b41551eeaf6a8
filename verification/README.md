# Verified model of the AMD GPU operator's controllers

The AMD GPU operator installs, upgrades and repairs GPU drivers on the nodes of a Kubernetes
cluster. This project models its three stateful controllers and the string and mapping code they
rely on, and proves what they keep over whole runs.

* **Driver upgrades.** `UpgradePass` holds the upgrade manager as a class: a pass classifies every
  node through an ordered chain of checks that also write statuses, counts the outcomes, applies the
  policy and starts candidates. `NodeWorker` is the goroutine that upgrades one started node.
  `UpgradeRuns` puts passes and workers into one transition system in which a step is a single load
  or store of the shared status map or a single API call, and proves both limits of the policy for
  all interleavings. `Classification` proves that the step-by-step chain is the one-shot
  classification, and `UpgradeRefinement` that a pass of the class is a run of the transition system
  and so keeps the limits. `UpgradeProgress` follows one node through one pass. `LimitConditions` says
  for which configurations the limits hold without one of the premises, and `DocumentedLimit` for
  which ones the limit holds as it is documented. `UpgradeTimeouts` adds operator restarts and the
  persisted start times.
* **Remediation rate limit.** `RecoveryLimiter` and `AttemptLists` describe the persisted record of
  started workflows, its 72-hour cleanup, and the in-memory tracker. `RecoveryRuns` proves the
  sliding-window limit for all runs with aborted passes and restarts, and `RecoveryLimits` when it
  fails; `RemediationPass` is the manager as a class, whose passes are shown to be such runs.
  `RemediationTaints` covers the taints a workflow sets, its tolerations and the gate.
* **Node ownership.** `NodeOwnership` is the cluster with sequential reconciles, deletions and
  crashes at any point; `Reconciler` is the class whose reconciles are shown to be runs of it.
* **Names and mappings.** `ImageTags`, `LabelTemplates` and `KernelMappings`.

Answers of the API server, clock readings and the order in which Go iterates over maps are
parameters or nondeterministic choices. Times are whole seconds and integers are unbounded.

## Where the code departs from what is promised

* The upgrade documentation (docs/drivers/upgrading.md:137-138) says that a selection satisfies both
  limits and that all failed nodes count. The code does not count `Reboot-Failed`
  (internal/controllers/upgrademgr.go:601-607). `DocumentedLimitExactly` says when the limit holds
  nevertheless: exactly if no reboot follows an upgrade, or no node can be started, or the limit is no
  smaller than the number of nodes. Reboots are on by default.
* For the states the code counts, the limits hold under the premises of `UpgradeRuns.Premise`.
  `PremiseNeededExactly` says of each premise of maxUnavailableNodes (uncordons succeed, no retry of a
  node whose worker is running, no worker gives up behind its node's look for failed states) that
  without it the limit is broken in some run, unless it is no smaller than the number of nodes or, for
  the premises on workers, nothing can be started. `FailureOverlookedExactly` says at which checks and
  for which nodes giving up matters.
* A worker can write `Upgrade-In-Progress` over `Upgrade-Timed-Out`. By `ParallelLimitExactly`,
  maxParallelUpgrades is kept in all runs exactly if it is no smaller than the scaled
  maxUnavailableNodes or the number of nodes; with the defaults, 1 and 25%, it is not from five nodes on.
* A failed uncordon sets `Uncordon-Failed` and lets the node fall through to the candidates.
  `CandidateUnavailableExactly` says for exactly which nodes this happens.
* After a restart a node whose upgrade was only started may be taken for untouched:
  `RestartForgetsExactly` lists the cases.
* A reconcile that admits a node and stops before its status is stored, followed by a restart, leaves
  the two-hour check with the time of an earlier admission; `StartUsedIsLatestAdmission` says exactly
  when.
* The readiness test compares suffixes, so an image for version 16.3 counts as ready for 6.3.
* Tracker keys of different nodes and conditions can coincide. `SyncFaithfulExactly` says for which
  condition names a sync is to be trusted, and `LimitsNeedSeparateNamesExactly` that for all others a
  limit is broken in some run.
* The record forgets after 72 hours, so longer windows are not enforced
  (`LimitNeedsShortWindowExactly`).
* A condition whose window size cannot be parsed lets workflows be created without being registered;
  the contract of `HandleNode` names this case.
* A DeviceConfig status that the API server stores but reports as an error can put a node into two
  Ready DeviceConfigs (`UnreportedStatusBreaksOwnership`); `PremiseIsExact` says when it does.
* Validation accepts a taint without an effect; a workflow then tolerates more than the gate stops
  at (`ToleratedExactlyWhenBlocking`).

## Model

| member | source | states |
|---|---|---|
| `UpgradeTypes.QuotaIsExact` | internal/controllers/upgrademgr.go:256-272 | the number of started nodes is exactly min(max(0, allowed − in progress), candidates); whatever is started leaves in progress + started + failed within the scaled maxUnavailableNodes and in progress + started within a nonzero maxParallelUpgrades; a malformed limit starts nothing |
| `UpgradeTypes.ScaledPercent` | vendor/k8s.io/apimachinery/pkg/util/intstr/intstr.go:182-198 | the scaled bound m of p percent of n nodes satisfies p·n ≤ 100·m < p·n + 100, and is positive for positive p and n; a number stands for itself and malformed text for nothing |
| `UpgradeTypes.PositiveLimitMakesProgress` | internal/controllers/upgrademgr.go:630-655 | no deadlock from rounding: with a positive limit, none failed and none in progress, a pass with a candidate starts a node |
| `Classification.ChainIsClassify` | internal/controllers/upgrademgr.go:188-245 | the chain of checks cut into single loads and stores ends, without interference, with the state and bucket of the one-shot classification |
| `Classification.BucketsExactly` | internal/controllers/upgrademgr.go:186-246 | each of the six buckets as an if-and-only-if over what is known of the node and its state: failed, upgrading, done (the wanted driver is loaded, and the node was complete or can be uncordoned), installing, candidate and not ready |
| `Classification.StatesExactly` | internal/controllers/upgrademgr.go:188-245 | the state a pass leaves each node in, for every bucket |
| `Classification.OfferedExactly` | internal/controllers/upgrademgr.go:196-243 | while uncordons succeed, a node is a candidate if and only if it is schedulable, is no first installation, has another driver or none loaded, and is without state, not started, complete, installed or in a failed reboot, or failed with a retry |
| `Classification.CandidateUnavailableExactly` | internal/controllers/upgrademgr.go:504-564 | a candidate is in flight or failed if and only if a failed uncordon slipped through the chain, and then it is Uncordon-Failed |
| `Classification.FailureOverlookedExactly` | internal/controllers/upgrademgr.go:188-245 | a node found failed at a load up to the look for failed states is always counted as failed; behind it, it becomes a candidate if and only if it is schedulable, not new (where that is still to be checked) and not up to date (likewise) |
| `NodeWorker.WorkerTraceOrder` | internal/controllers/upgrademgr.go:858-920 | for all API answers: the version label is written only after taint and then drain succeeded with the version re-read unchanged after each; Reboot-In-Progress and Upgrade-In-Progress only when the latest re-read gave the worker's version; every failure state only after the call it names; at most Reboot-In-Progress precedes another write |
| `NodeWorker.WorkerIsDutiful` | internal/controllers/upgrademgr.go:858-1299 | for all API answers, each step of a worker does what its history demands, told by the events alone (including the 360, 300 and 360 looks of the polling loops), and the worker returns exactly when nothing is due |
| `NodeWorker.WorkerEnds` | internal/controllers/upgrademgr.go:858-1299 | a returned worker ended with the store of a final state, a read of the DeviceConfig that did not give its version, a missing reboot pod, or the removal of that pod after such a read |
| `NodeWorker.SuccessEndsInProgress` | internal/controllers/upgrademgr.go:1272-1299 | a worker whose calls all succeed and that always finds its version ends with Upgrade-In-Progress, and with Reboot-In-Progress before it if it rebooted the node |
| `NodeWorker.FailureStored` | internal/controllers/upgrademgr.go:876-920 | a failed taint, drain, pod removal, label update or pod creation ends in exactly the state it names, for the first two after the version was found unchanged, and in no store otherwise |
| `NodeWorker.WorkerReturns` | internal/controllers/upgrademgr.go:1144-1299 | every worker returns within 2000 steps, whatever the API answers |
| `UpgradeRuns.LimitKeptOverRuns` | internal/controllers/upgrademgr.go:186-275 | safety over whole runs, with any workers running at the start: no interleaving of passes and workers lifts in-flight + failed nodes above the scaled maxUnavailableNodes, nor in-flight nodes above a nonzero maxParallelUpgrades, unless they started above; of all stores by workers only failures behind the look for failed states of the very node are excluded |
| `UpgradeRuns.BoundIsConfigured` | internal/controllers/upgrademgr.go:630-655 | the bounds of the limits in terms of the policy: maxParallelUpgrades, the number given as maxUnavailableNodes, or the percentage rounded up |
| `UpgradeRuns.CountedStates` | internal/controllers/upgrademgr.go:601-614 | the three states of an upgrade under way and the five failed states that the limits count, by name |
| `UpgradeRuns.InFlightNeverCandidate` | internal/controllers/upgrademgr.go:188-245 | the check order tolerates concurrent progress: at every moment of every run, a node waiting for admission is neither in flight nor failed and has no running worker, and no node has two running workers |
| `UpgradeRuns.LookStep` | internal/controllers/upgrademgr.go:504-628 | every single check keeps what its position in the chain says about the node's state, and no step makes an in-flight or failed node leave the counts |
| `UpgradeProgress.ProgressIsNeverOffered` | internal/controllers/upgrademgr.go:188-245 | a node in flight when a pass gets to it, whose worker only makes success moves while it is looked at, is at no moment of that pass a candidate or admitted, whatever happens to other nodes |
| `LimitConditions.PremiseNeededExactly` | internal/controllers/upgrademgr.go:186-275 | with the premise on uncordons, on retries or on workers that give up waived, all runs from a quiet start keep maxUnavailableNodes if and only if it is at least the number of nodes or, for the last two, nothing can be started |
| `LimitConditions.ParallelLimitExactly` | internal/controllers/upgrademgr.go:702-711 | with timeouts of nodes whose workers are running, all runs from a clean start keep a positive maxParallelUpgrades if and only if it is at least the scaled maxUnavailableNodes or the number of nodes |
| `DocumentedLimit.DocumentedLimitExactly` | internal/controllers/upgrademgr.go:601-655 | with Reboot-Failed counted, all runs within the premises keep the limit if and only if no reboot follows an upgrade, or nothing can be started, or the limit is at least the number of nodes |
| `UpgradePass.BucketsPartition` | internal/controllers/upgrademgr.go:186-246 | failed + in progress + done + installing + not ready + candidates is the number of nodes looked at |
| `UpgradePass.PassVerdict` | internal/controllers/upgrademgr.go:180-246 | what a pass makes of each node: the verdict on the node's own state, or on none if the version has changed, decides its state and whether it is a candidate, and its start time is forgotten exactly if it failed or is done |
| `UpgradePass.CountersExactly` | internal/controllers/upgrademgr.go:186-246 | the counters of the scan are the numbers of verdicts of each kind |
| `UpgradePass.OutdatedNodesStarted` | internal/controllers/upgrademgr.go:186-275 | with room for all candidates, a pass starts every labelled, schedulable and ready node on which another driver is loaded and nothing is going on, and stores its start time |
| `UpgradePass.SkippedPass` | internal/controllers/upgrademgr.go:122-132 | without drivers to manage or with upgrades switched off, a pass changes nothing, starts nothing and asks for no repeat |
| `UpgradePass.CandidatesInOrder` | internal/controllers/upgrademgr.go:186-246 | candidates are at increasing positions of the node list, and each still has the state with which its own verdict made it a candidate |
| `UpgradePass.CandidatesAreOffered` | internal/controllers/upgrademgr.go:186-246 | every candidate is schedulable, not NotReady, and in no in-flight or install state; candidates are distinct and in list order |
| `UpgradePass.RequeuedUntilDone` | internal/controllers/upgrademgr.go:248-274 | a pass asks to be repeated exactly if the verdict on some node is not that it is done |
| `UpgradePass.AdmissionIsExact` | internal/controllers/upgrademgr.go:256-272 | a pass starts exactly as many of the first candidates as there is room below both limits; each becomes Started with its own start time, and no other node changes |
| `UpgradePass.UpgradeManager.SetNodeStatus` | internal/controllers/upgrademgr.go:725-738 | afterwards the node is in the given state and every other node in its own |
| `UpgradePass.UpgradeManager.InitNodeStates` | internal/controllers/upgrademgr.go:134-169 | the first pass after a start takes over the persisted states node by node, with started and rebooting nodes treated apart, in any order of the map; and for which nodes it starts a goroutine that deletes the reboot pod, at once or after the reboot |
| `UpgradePass.RestoredExactly` | internal/controllers/upgrademgr.go:134-169 | the restored state and the goroutine for every persisted state |
| `UpgradePass.LastStoreIsLast` | internal/controllers/upgrademgr.go:142-146 | the state a reboot leaves behind is the last one it stores |
| `UpgradePass.RestartForgetsExactly` | internal/controllers/upgrademgr.go:134-178 | a node persisted as in flight or failed is taken for available after a restart if and only if its upgrade was only started and no reboot is asked for, or it cannot be read, or it has rebooted, or the reboot made up for returns without having stored a state or fails |
| `UpgradePass.UpgradeManager.HandleInitStatus` | internal/controllers/upgrademgr.go:396-432 | a node without state becomes Not-Started; a failed one does when a retry label was removed and the version was reset |
| `UpgradePass.UpgradeManager.HandleUpgradeTimedOut` | internal/controllers/upgrademgr.go:702-711 | an in-flight node becomes Timed-Out exactly when the start time used for it is more than 7200 seconds ago |
| `UpgradePass.UpgradeManager.IsNodeNmcStatusMissing` | internal/controllers/upgrademgr.go:504-526 | true exactly for an upgrading node with an empty image whose uncordon succeeds; a failed uncordon is stored and not reported |
| `UpgradePass.UpgradeManager.IsNodeReady` | internal/controllers/upgrademgr.go:529-564 | true exactly if the image ends with the wanted version and the node was complete before or is uncordoned; what is stored in each case |
| `UpgradePass.UpgradeManager.IsNodeNew` | internal/controllers/upgrademgr.go:471-501 | true exactly for nodes without version label or with an unfinished first installation; they become Install-In-Progress |
| `UpgradePass.UpgradeManager.IsNodeStateUpgradeInProgress` | internal/controllers/upgrademgr.go:581-599 | true exactly for Upgrade-In-Progress nodes, also when a failed label update turns them into Failed |
| `UpgradePass.UpgradeManager.IsNodeReadyForUpgrade` | internal/controllers/upgrademgr.go:617-628 | true exactly for schedulable nodes whose Ready conditions are all true |
| `UpgradePass.UpgradeManager.ClassifyNode` | internal/controllers/upgrademgr.go:188-245 | the ordered checks of one node store the state and give the bucket of the one-shot classification, and touch no other node |
| `UpgradePass.UpgradeManager.ScanNodes` | internal/controllers/upgrademgr.go:186-246 | the loop leaves statuses, start times and counters as the scan function, about which the partition and order lemmas speak |
| `UpgradePass.UpgradeManager.Admit` | internal/controllers/upgrademgr.go:256-272 | the admission loop starts the first max(0, min(room, candidates)) candidates with their start times |
| `UpgradePass.UpgradeManager.HandleUpgrade` | internal/controllers/upgrademgr.go:116-275 | statuses, start times, started nodes, goroutines and requeue of a whole pass, including disabled policies, the states restored in the first pass and the wipe on a version change |
| `UpgradeRefinement.PassIsRun` | internal/controllers/upgrademgr.go:116-275 | an uninterrupted pass of the manager is a run of the transition system from idle to idle with the same node states and one launched worker per started node; it obeys the premises if uncordons succeed and no busy node is retried |
| `UpgradeRefinement.PassKeepsLimit` | internal/controllers/upgrademgr.go:186-275 | such a pass keeps both limits, whatever workers are running, and leaves each running worker with a node of its own |
| `UpgradeTimeouts.BuildNodeStatus` | internal/controllers/device_config_reconciler.go:675-744 | the rebuilt status has exactly the listed nodes, with their image and state, and the start time and boot ID in memory or else those stored before |
| `UpgradeTimeouts.EntryExactly` | internal/controllers/device_config_reconciler.go:695-740 | each field of an entry: image and state, start time and boot ID |
| `UpgradeTimeouts.StartUsedIsLatestAdmission` | internal/controllers/upgrademgr.go:657-700 | over all runs with restarts, worker writes and reconciles that stop before storing their status, a start time used by the two-hour check is that of the node's latest admission exactly if memory has it or no such reconcile admitted the node since it was last stored, and otherwise that of an earlier admission; for a node listed ever since, it is found exactly while memory has it or the persisted state is in flight or an installation |
| `UpgradeTimeouts.TimedOutMeansTwoHours` | internal/controllers/upgrademgr.go:674-711 | in the middle of any pass of any run the check reports a timeout only if the latest admission, as far as it is known, is more than 7200 seconds ago, and does so then for every node that was listed ever since and is persisted as in flight |
| `AttemptLists.PrefixDropIsFilterExactly` | internal/controllers/remediation_handler.go:1590-1616 | cutting a list at its first recent attempt equals filtering if and only if no old attempt follows a recent one |
| `AttemptLists.KeepRecentAgrees` | internal/controllers/remediation_handler.go:1795-1809 | a sync keeps all attempts that are recent at its end, however the clock runs meanwhile |
| `AttemptLists.SpacedMeansFew` | internal/controllers/remediation_handler.go:1815-1824 | in a list whose every m + 1 consecutive attempts span the window, no half-open interval of that length holds more than m |
| `AttemptLists.KeepRecentSkips` | internal/controllers/remediation_handler.go:1795-1809 | attempts that no clock reading finds recent may be dropped before a sync without changing its result |
| `RecoveryLimiter.KeysCollideExactly` | internal/controllers/remediation_handler.go:1734-1736 | two conditions share a tracker key for some nodes with proper names if and only if one of them is a piece of a node name, a dash and the other |
| `RecoveryLimiter.NoDashesNoCollision` | internal/controllers/remediation_handler.go:1734-1736 | condition names without dashes never share a key |
| `RecoveryLimiter.PolicyIsUsed` | internal/controllers/remediation_handler.go:1738-1750 | the limiter goes by the configured window and number of runs, by 300 minutes and three where they are not set, and by 300 minutes for conditions without mapping |
| `RecoveryLimiter.CleanedContents` | internal/controllers/remediation_handler.go:1618-1668 | the cleanup drops exactly the attempts up to the cut and leaves no empty list and no empty node |
| `RecoveryLimiter.CleanupInvisibleExactly` | internal/controllers/remediation_handler.go:1618-1668 | a cleanup cannot be noticed by a later sync if and only if the sync's window starts after the cleanup's cut, hence for every window below 72 hours |
| `RecoveryLimiter.SyncIgnoresCleanup` | internal/controllers/remediation_handler.go:1778-1813 | for every record and window below 72 hours, cleanup then sync tracks the same attempts as sync alone, if each attempt is examined at the same moment, not before the cleanup |
| `RecoveryLimiter.SyncFaithfulExactly` | internal/controllers/remediation_handler.go:1778-1813 | every sync of every cleaned-up record shows each node and condition its own recent attempts if and only if no condition name is a piece of a node name, a dash and another |
| `RecoveryRuns.RateLimited` | internal/controllers/remediation_handler.go:201-275 | over all runs with aborted passes and restarts, for a policy of m runs in w seconds (300 minutes and three unless set), w at most 72 hours: no half-open interval of w seconds holds more than m registered workflows of a node and condition |
| `RecoveryRuns.TrackerAgreesWithLog` | internal/controllers/remediation_handler.go:1778-1824 | after a sync the tracker agrees with the log of all workflows on everything inside the window, and cutting its lists is filtering them |
| `RecoveryRuns.GateIsExact` | internal/controllers/remediation_handler.go:1575-1588 | in every run, right after a sync, the count closes the gate if as many of all workflows ever registered as the limit allows started within the window before the last clock reading, and only if as many did before the first one |
| `RecoveryLimits.LimitNeedsShortWindowExactly` | internal/controllers/remediation_handler.go:1618-1668 | with separate names and a positive limit, all runs keep the limit of a condition if and only if its window is at most 72 hours |
| `RecoveryLimits.LimitsNeedSeparateNamesExactly` | internal/controllers/remediation_handler.go:1734-1736 | for windows up to 72 hours and positive limits (above one for windows of 72 hours or a second less), all runs keep all limits if and only if no condition name is a piece of a node name, a dash and another |
| `RemediationPass.RemediationManager.CleanRecord` | internal/controllers/remediation_handler.go:1631-1661 | succeeds exactly if every start time can be read, with the cleaned record |
| `RemediationPass.RemediationManager.DropOlderFromRecord` | internal/controllers/remediation_handler.go:1618-1668 | succeeds exactly if the record is fetched and either has no status or is readable and patched; the record is cleaned then, or if the patch was stored but reported as an error, and unchanged otherwise |
| `RemediationPass.RemediationManager.RecentTimes` | internal/controllers/remediation_handler.go:1795-1809 | the attempts not older than the window at their own clock reading, unless one cannot be read |
| `RemediationPass.RemediationManager.SyncFromRecord` | internal/controllers/remediation_handler.go:1778-1813 | succeeds exactly if the record is fetched and its times and windows can be read; then every key of the record, and only those, holds the recent attempts of an entry with that key; a failed fetch leaves the tracker alone |
| `RemediationPass.RemediationManager.DropOlderInternal` | internal/controllers/remediation_handler.go:1590-1616 | cuts one tracked list at its first recent attempt and nothing else |
| `RemediationPass.RemediationManager.RegisterAttempt` | internal/controllers/remediation_handler.go:1670-1732 | the attempt is in the tracker, and in the record exactly if the patch is stored, whatever is reported |
| `RemediationPass.RemediationManager.HandleExistingWorkflows` | internal/controllers/remediation_handler.go:1470-1545 | a new workflow may be created exactly if the workflows could be listed and the first running or undeletable one of the node, if any, is running, suspended and was aborted at the request of the node's label |
| `RemediationPass.RemediationManager.IsWorkflowSchedulable` | internal/controllers/remediation_handler.go:1442-1468 | true exactly if no remediation taint is on the node, its driver is in none of the five states of an installation or upgrade, and fewer workflows are tracked than the configured number, or three |
| `RemediationPass.RemediationManager.FindCondition` | internal/controllers/remediation_handler.go:1417-1440 | finds a condition if and only if one is true and mapped, and then the first such |
| `RemediationPass.LaunchExactly` | internal/controllers/remediation_handler.go:219-275 | a node gets a workflow for its first true mapped condition if and only if nothing is in the way, neither taints nor driver work forbid it, fewer workflows are tracked than configured, the window can be read, and template and creation succeed |
| `RemediationPass.NoLaunchUnmapped` | internal/controllers/remediation_handler.go:1417-1440 | a node without a true mapped condition gets none |
| `RemediationPass.LaunchInPass` | internal/controllers/remediation_handler.go:219-275 | every node of a pass gets its due, behind the nodes before it |
| `RemediationPass.UnobstructedExactly` | internal/controllers/remediation_handler.go:1470-1545 | the rule for existing workflows, written out over their phases and labels |
| `RemediationPass.RemediationManager.HandleNode` | internal/controllers/remediation_handler.go:219-275 | a workflow is created exactly if a condition matches, no existing workflow, taint or driver upgrade stands in its way and the limit is not reached; one stored in the record is the Start step of the limiter, otherwise the record is unchanged; the node counts as handled unless a workflow was created whose patch fails or whose window cannot be read |
| `RemediationPass.RemediationManager.HandleRemediation` | internal/controllers/remediation_handler.go:201-275 | every pass, whatever fails on the way, is a run of the limiter that ends with the manager's record; one that gets through all nodes cleans, syncs and launches exactly the workflows the gate lets through, in node order |
| `RemediationTaints.CheckIfTaintExists` | internal/controllers/remediation_handler.go:559-577 | true exactly if the node carries key and effect of a taint that remediation sets, for every condition alike |
| `RemediationTaints.BlockedExactly` | internal/controllers/remediation_handler.go:559-577 | the blocking taints by key and effect: the configured ones, or amd-gpu-unhealthy with NoSchedule |
| `RemediationTaints.NodeTaints` | internal/controllers/remediation_handler.go:1908-1924 | the printed form of every configured taint in order, or of the default taint |
| `RemediationTaints.Workflow.ApplyTolerations` | internal/controllers/remediation_handler.go:1926-1949 | every template keeps its tolerations and gets one for each taint |
| `RemediationTaints.AppliedTaintsToleratedAndBlocking` | internal/controllers/remediation_handler.go:1442-1454 | a taint set from any of the printed arguments is tolerated by every template of the workflow and blocks its node for every other workflow and condition |
| `RemediationTaints.ToleratedExactlyWhenBlocking` | internal/controllers/remediation_handler.go:1926-1949 | the added tolerations and the gate agree on all taints if and only if every configured taint has a key and an effect |
| `NodeOwnership.RebuildIsGreedy` | internal/controllers/device_config_reconciler.go:1643-1679 | from an empty map and distinct names, exactly the Ready DeviceConfigs disjoint from all earlier accepted ones own all their nodes, and nobody else owns any |
| `NodeOwnership.RebuildIsComplete` | internal/controllers/device_config_reconciler.go:1643-1679 | without overlaps between Ready DeviceConfigs the rebuild gives every node back to its owner |
| `NodeOwnership.OwnershipSurvivesCrashes` | internal/controllers/device_config_reconciler.go:216-384 | in every run with deletions and restarts at any point, in which statuses stored but reported as errors are settled first, no node is in the status of two Ready DeviceConfigs, and a rebuild from any listing meets no conflict |
| `NodeOwnership.PremiseIsExact` | internal/controllers/device_config_reconciler.go:370-381 | after a successful ownership check, storing the status puts a node into two Ready DeviceConfigs if and only if another one that lists it was stored but reported as an error and not settled since |
| `NodeOwnership.UnreportedStatusBreaksOwnership` | internal/controllers/device_config_reconciler.go:370-381 | a run in which that happens |
| `NodeOwnership.OwnerIsStable` | internal/controllers/device_config_reconciler.go:1681-1700 | in every run at all, no node changes owner while the process runs and the owner is not found deleted |
| `NodeOwnership.NodesAreFreed` | internal/controllers/device_config_reconciler.go:228-233 | in every run, every owner in the map exists or its deletion is still to be reconciled; after that nobody of that name owns a node, and another DeviceConfig passes its check exactly if all its owned nodes were its own or the deleted one's |
| `Reconciler.DeviceConfigReconciler.ValidateNodeAssignments` | internal/controllers/device_config_reconciler.go:1629-1641 | reports the first node that belongs to another DeviceConfig, and none exactly if there is none |
| `Reconciler.DeviceConfigReconciler.UpdateNodeAssignments` | internal/controllers/device_config_reconciler.go:1681-1700 | claims the nodes, removes them, or, without a list, removes exactly the entries of the owner |
| `Reconciler.DeviceConfigReconciler.BuildNodeAssignments` | internal/controllers/device_config_reconciler.go:1643-1679 | the loop computes the rebuild about which the greedy lemma speaks |
| `Reconciler.DeviceConfigReconciler.EnsureStarted` | internal/controllers/device_config_reconciler.go:171-179 | the first reconcile rebuilds the map; if the listing fails then, that one and all later reconciles fail |
| `Reconciler.DeviceConfigReconciler.Reconcile` | internal/controllers/device_config_reconciler.go:216-384 | a reconcile is a run of the cluster, whatever fails on the way; when it succeeds, and what it stores and claims in each case: the nodes of an accepted DeviceConfig, the release of a deleted one, nothing after a conflict or a failed start, a status but no claim when storing is wrongly reported as an error |
| `Reconciler.AppliedExactly` | internal/controllers/device_config_reconciler.go:259-381 | entry by entry, what the reconcile of an existing DeviceConfig stores and claims: not Ready after a conflict, an invalid spec or without nodes; Ready with its nodes, each of them owned, if all steps succeed; nobody else is touched |
| `ImageTags.TagFits` | internal/kmmmodule/kmmmodule.go:633-644 | every tag has at most 128 characters |
| `ImageTags.LoadedImageSpelledOut` | internal/kmmmodule/kmmmodule.go:633-644 | as long as the tag is not cut, the loaded image is repository, colon, OS, kernel, the piece for the driver type and version, with dashes between them |
| `ImageTags.VersionReadBackExactly` | internal/controllers/upgrademgr.go:1075-1088 | whatever kernel KMM fills in, the text behind the last dash of the loaded image is the version if and only if the version has no dash and at most 127 characters |
| `ImageTags.ReadinessTestExactly` | internal/controllers/upgrademgr.go:529-536 | whatever kernel KMM fills in, the suffix test accepts a dash-free version w on an image for u if and only if w is a suffix of u |
| `ImageTags.FillSplits` | vendor/github.com/rh-ecosystem-edge/kernel-module-management/internal/utils/replaceStrings.go:34-49 | filling in the kernel keeps the parts of an image on both sides of a dash or colon apart |
| `ImageTags.ShorterVersionMistaken` | internal/controllers/upgrademgr.go:529-536 | an image for 16.3 passes the test for 6.3 |
| `LabelTemplates.MatchIsPrint` | internal/utils.go:427-436 | for every template with at most two verbs and otherwise plain text, the generated expression matches with given captures if and only if printing them gives the text and they have the right shape |
| `LabelTemplates.OperatorTemplatesAreRegular` | internal/utils.go:71-73 | the three templates of the operator are of this kind |
| `LabelTemplates.LabelRoundTrip` | internal/utils.go:71-73 | a key matches with a namespace and a name if and only if it is their label, the namespace is nonempty without dots and the name nonempty without newlines |
| `LabelTemplates.SplitIsUnique` | internal/controllers/workermgr/workermgr.go:147-149 | two fitting pairs with the same label are the same pair |
| `LabelTemplates.LabelsSpelledOut` | internal/utils.go:71-73 | the three labels of a namespace and a name, spelled out |
| `LabelTemplates.TemplatesDoNotOverlap` | internal/utils.go:71-73 | no key is a label of two of the three templates |
| `LabelTemplates.HasNodeLabelTemplateMatch` | internal/utils.go:438-449 | found exactly if some label matches the expression; what is returned is a label with its captures |
| `KernelMappings.Collect` | internal/kmmmodule/kmmmodule.go:443-463 | distinct kernels, every buildable node covered, every mapping from the first node that has it, the version of the last one |
| `KernelMappings.GetKernelMappings` | internal/kmmmodule/kmmmodule.go:437-464 | fails exactly if no mapping can be built; otherwise one mapping per kernel as above |
| `KernelMappings.MappingExactly` | internal/kmmmodule/kmmmodule.go:466-631 | kernel, image for OS, driver type and version, and ConfigMap of a node's mapping, and exactly when it cannot be built |
| `KernelMappings.HandleBuildConfigMap` | internal/controllers/device_config_reconciler.go:1130-1181 | succeeds exactly if KMM is not used, or there are nodes, every OS is known and no ConfigMap is refused; then exactly the ConfigMaps of the nodes are reconciled, or none without KMM |
| `KernelMappings.BuildThenMap` | internal/kmmmodule/kmmmodule.go:534-537 | every Dockerfile ConfigMap named by a mapping was reconciled in the step before |

## Left out

- UpgradeTypes.ScaledPercent: computes percentages exactly, where the library multiplies and divides float64 values and takes the ceiling.
- UpgradeRuns.LimitKeptOverRuns: one DeviceConfig with fixed version, policy and node list and no restart; several DeviceConfigs share one status map in the operator and a version change wipes it.
- UpgradePass.UpgradeManager.IsNodeNew: in `Classification.Advance` its two stores after a failed label update (Failed, then Install-In-Progress) are one step, so no other goroutine sees the first of them.
- UpgradePass.UpgradeManager.InitNodeStates: what the goroutines it starts do afterwards is that of a worker from `FindPod` on, and they are not among the workers of `UpgradeRuns`, which knows no restarts.
- UpgradeTimeouts.StartUsedIsLatestAdmission: the statuses after a restart are arbitrary, which covers those that the first pass restores.
- RemediationPass.RemediationManager.HandleRemediation: the runs speak of workflows that are in the record; one that was created while storing its registration failed is in no run, so the limit does not count it.
- RemediationPass.RemediationManager.HandleNode: resuming a suspended workflow, and the filling in of a workflow from its template, are not modelled.
- RecoveryLimits.LimitsNeedSeparateNamesExactly: does not speak of a limit of one for windows of 72 hours or one second less, in which an attempt is never both too old for the window and still in the record; the half that separate names are enough covers it too (`RecoveryRuns.RateLimited`).
- ImageTags.TagFits: counts characters, which are bytes for the ASCII names in use, and the tag before KMM fills in the kernel.
- ImageTags.VersionReadBackExactly: KMM fills in the kernel placeholder only; other variables that a repository, OS name or version with a dollar sign could refer to are not modelled.
- LabelTemplates.MatchIsPrint: templates with metacharacters other than dots, or with percent signs other than in %v, for which pattern and printer part, are outside its precondition; the operator has none.
- Reconciler.DeviceConfigReconciler.Reconcile: the steps between the ownership check and the status update are one outcome flag.
- Finalizers and deletion handling, reboot pod contents, drain and pod selection inside the worker: each call is one step with a free outcome; boot IDs in memory are parameters.
- Label keys of a node's module version and retry request are fields of `UpgradePass.Node`.
- The toleration cache and the automatic start of workflows: the code keeps no invariant there that could be stated.
- OS detection, default driver versions, SLES registry lookup and API discovery: parameters.
- DaemonSet, Service and Pod builders, validators, watchers and the VFIO worker manager: field copying, finite tables or event plumbing.
