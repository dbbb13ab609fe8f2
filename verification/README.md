# OneBridge control plane: a verified model

OneBridge is a control plane that produces task artifacts through adapters, has people review and release them, and
moves its own production deployment between a blue and a green slot under a guarded release protocol. This project
models that control plane in Dafny and proves what it is meant to keep, over every run and every interleaving.

| file | what it models |
|---|---|
| `WorkflowGraph.dfy`, `DefaultPipeline.dfy` | the layered topological scheduler, the depth-first ancestor search, the default pipeline |
| `CompatibilityService.dfy`, `ReleasePipeline.dfy` | adapter versions, qualification evidence, atomic promotion of a set |
| `DeploymentRegistry.dfy` | the slot table under every interleaving of its transactions |
| `SwitchJournal.dfy`, `DeploymentSwitch.dfy` | the write-ahead action journal with crashes at any point, and the service that drives it |
| `ProductionRelease.dfy` | one guarded release: qualify, probe, switch, smoke-test, promote, compensate, reconcile |
| `ReleasePlan.dfy`, `ReleaseProtocol.dfy`, `ReleaseOperator.dfy` | plan fingerprints, the concurrent request/approve/execute/revoke protocol, and the operator's own operations |
| `Artifacts.dfy`, `ReleaseGate.dfy` | artifact revisions, the fail-closed gate, the release manifest |
| `TaskRun.dfy`, `TaskLifecycle.dfy`, `TaskService.dfy` | the resumable adapter-atomic run, the life of a task over every sequence of operations, the service |
| `WorkerQueue.dfy` | the durable queue as a concurrent machine, its two stores, the scheduler and the worker |
| `AuditLog.dfy` | the lock-protected hash chain |
| `ContextForge.dfy` | the greedy bounded context selection |
| `Outcomes.dfy`, `Collections.dfy` | shared option and result types, facts about sets and sequences |

`dafny verify dfyconfig.toml` checks everything.

## How it is modelled

- A `with db.Session()` block that commits is one atomic step. Where the code changes rows in place the model is a class
  whose methods are proved against a function of the old state; the theorems over runs are about those functions.
- The concurrent parts (journal, release protocol, queue, audit log) are state machines whose events are the committed
  transactions; a crash is an event of its own, and time is a natural number that only grows.
- The traffic router keeps the traffic on the last slot it accepted; it raises only when it moved nothing.
- Fingerprints and digests are taken to be injective: a constructor for plan fingerprints, contents and task job ids, an
  assumption on the hash parameter in `AuditLog`.
- `updated_at` of journal and release rows is a write counter, so two writes never tie.
- There is one deployed service and slot names, adapter names, people and versions arrive already normalised. People are
  opaque names: the redaction and truncation applied to them before storage does not change them.
- `register_current` is called with `candidate`, as every caller does; `approve` is called without a request id, as the
  HTTP route does.
- What adapters, probes, the actuator and the smoke test answer are parameters of the operations. So is what may fail
  around a release: each transaction of a qualification, each registry commit, the adapter-set commit, the three journal
  writes of a switch, and the reads after those commits. The theorems hold for all of it. A switch whose first reads
  fail ends like one on stale evidence. The writes and reads of release rows and the look at the newest journal row do
  not fail in the model; if they do, the run itself raises.
- A task's artifacts are numbered by position, in the order of their creation. A decision may also name no artifact at
  all, which request parsing refuses, so the theorems cover a few more runs than the service has.

## What the model brought out

- A switch that breaks off between the actuator call and the registry commit leaves a row that `reconcile` never looks
  at: `SwitchJournal.CrashCanStrand`. Exactly which break-offs lose the way back, per state and over whole runs:
  `SwitchJournal.CrashStrandsExactly`, `SwitchJournal.EveryRunRecoversExactly`.
- A journal write or read that raises after something took effect makes the release status wrong: `switch_failed` with
  the target active or serving, `rollback_failed` with the previous slot active, `rolled_back` with new adapter versions
  active (`ProductionRelease.SwitchFailedMayHaveLanded`, `SwitchFailedMayHaveMoved`, `RollbackFailedMayHaveLanded`,
  `RolledBackMayHavePromoted`). The statuses are right exactly when nothing raised in such a place:
  `ProductionRelease.OutcomeIsAllOrNothing`.
- A release whose switch failed without writing a journal row is labelled `reconcile_required` exactly when the newest
  journal row, written by an earlier operation, still asks for reconciliation: `ProductionRelease.OldRequestLabelsExactly`,
  with an example in `OldRequestLabelsRelease`.
- The consume step looks at `consumed_at` alone, so a revocation that lands after the checks does not stop the run:
  `ReleaseProtocol.RevocationCanLoseTheRace`. It can be missed exactly by the executors that have passed the checks and
  not consumed yet: `ReleaseProtocol.RevocationMissesExactly`.
- Single flight holds exactly as long as the lease is never taken while a live executor has outlived its window:
  `ReleaseProtocol.AtMostOneInFlight`, with a failing history in `OverstayingBreaksSingleFlight`.
- Without an approval policy a task can be `succeeded` while the gate refuses it:
  `TaskLifecycle.UnreviewedSuccessCanBeRefused`; exactly when is `TaskLifecycle.GateWithoutReview`. Under review the two
  agree: `TaskLifecycle.GateAgreesWithStatus`.
- A task without an approval policy that requires no output passes the gate and is then refused by the manifest:
  `TaskLifecycle.EmptyReleaseIsRefused`; otherwise an open gate always leads to a manifest: `TaskLifecycle.ManifestIsBuilt`.
- A release shuts the gate of a task under review, because the newest release artifact has the status `released`:
  `TaskLifecycle.ReleaseClosesGate`. Only a later decision on a release artifact opens it again:
  `TaskLifecycle.ReopeningWasDecided`.
- An append that is cut short inside its event ends the log: no append succeeds again. One that lacks only its line end
  still verifies, and the next append spoils the file: `AuditLog.EveryInterleavingVerifies`, `AuditLog.SpoiltForever`.

## Model

| member | source | states |
|---|---|---|
| WorkflowGraph.StepMap | src/onebridge/workflow_graph.py:23-28 | the dictionary of steps by index, or the duplicate error exactly when an index repeats |
| WorkflowGraph.ExecutionWaves | src/onebridge/workflow_graph.py:55-82 | each of the three errors exactly when it applies (with unique indices and all dependencies present: fails iff the dependency graph has a cycle); otherwise every step once, in the wave whose number is the length of its longest dependency chain, sorted by index |
| WorkflowGraph.StuckImpliesCycle | src/onebridge/workflow_graph.py:70-77 | a non-empty remaining set in which no step is ready contains a cycle |
| WorkflowGraph.ScheduledIsAcyclic | src/onebridge/workflow_graph.py:55-82 | a graph with a schedule has no cycle |
| WorkflowGraph.NoEarlierLayer | src/onebridge/workflow_graph.py:55-82 | no valid layering, however chosen, puts a step before its wave, so none has fewer waves |
| WorkflowGraph.ScheduleUnique | src/onebridge/workflow_graph.py:55-82 | a graph has one schedule |
| WorkflowGraph.GraphIgnoresOrder | src/onebridge/workflow_graph.py:23-28 | the graph, hence the schedule and the errors, is the same for every ordering of the input steps |
| WorkflowGraph.FirstFailure | src/onebridge/workflow_graph.py:58-66 | which of the two validation errors is raised is decided by the first failing step in index order |
| WorkflowGraph.AncestorSearch.Visit | src/onebridge/workflow_graph.py:36-48 | the depth-first visit with its grey and black sets: normal return closes the black set under dependencies; an error is a missing index or a cycle that is reachable |
| WorkflowGraph.AncestorIndices | src/onebridge/workflow_graph.py:31-52 | terminates; returns exactly the sorted transitive dependencies, and returns normally iff no missing index and no cycle is reachable |
| WorkflowGraph.AncestorsRunEarlier | src/onebridge/workflow_graph.py:31-82 | whenever the waves exist the ancestors of every step are defined and lie in strictly earlier waves |
| DefaultPipeline.MakePipeline | src/onebridge/workflow_graph.py:85-113 | the requested kinds in the fixed order, each step depending on the one before; fails exactly on a kind without an adapter, naming all such kinds |
| DefaultPipeline.DefaultWaves | src/onebridge/workflow_graph.py:55-113 | a default pipeline has unique indices, no missing dependency and no cycle, and its only schedule is one step a wave in pipeline order |
| CompatibilityService.CompatibilityService.RegisterCurrent | src/onebridge/compatibility_service.py:31-63 | the installed version gets a candidate entry if it had none or was blocked; an active entry stays active |
| CompatibilityService.CompatibilityService.QualifyCurrent | src/onebridge/compatibility_service.py:65-103 | both transactions, either of which may raise: evidence is recorded whatever it says, and a failed report blocks the version even if it was active |
| CompatibilityService.CompatibilityService.Promote | src/onebridge/compatibility_service.py:121-161 | error and no change exactly when the entry is missing, not promotable or without passing latest evidence; otherwise the only active version of its adapter, even if the read after the commit raises |
| CompatibilityService.CompatibilityService.PromoteMany | src/onebridge/compatibility_service.py:163-233 | all-or-nothing in the tables: the first error in target order or a refused commit and no change, or the joint activation of every target; returns normally iff the reads after the commit succeed too |
| CompatibilityService.CompatibilityService.Block | src/onebridge/compatibility_service.py:235-254 | the entry, and nothing else, becomes blocked |
| CompatibilityService.CompatibilityService.RequireActiveRegistry | src/onebridge/compatibility_service.py:289-315 | passes iff every installed adapter is no mock and its installed version is active on passing latest evidence |
| CompatibilityService.PromoteManyIsPromoteEach | src/onebridge/compatibility_service.py:121-233 | the atomic promotion succeeds exactly when promoting the distinct targets one by one (skipping active ones) does, and ends in the same tables |
| CompatibilityService.ActivatedAllOutcome | src/onebridge/compatibility_service.py:195-221 | with one version per adapter, each target ends as the only active version of its adapter |
| CompatibilityService.ApplySound | src/onebridge/compatibility_service.py:31-254 | each transaction keeps: at most one active version per adapter, and the latest qualification of every active version passed |
| CompatibilityService.EveryRunIsSound | src/onebridge/compatibility_service.py:31-254 | the same over every interleaving of register-candidate, qualify, promote, promote_many and block from the empty tables |
| ReleasePipeline.Run | src/onebridge/release_pipeline.py:44-156 | passes iff every adapter of the de-duplicated set is installed, may be qualified and answers with a passing report, and the promotion (if asked for) commits and returns; one item per adapter with its own verdict; the errors in order; the set is activated iff all of it passes, promotion is asked for and the commit goes through |
| ReleasePipeline.QualifyAllSound | src/onebridge/release_pipeline.py:85-106 | qualifying any set keeps the tables sound and makes nothing active |
| ReleasePipeline.PassedSetIsQualified | src/onebridge/release_pipeline.py:85-106 | after a passing set each member is registered with passing latest evidence, whatever order they were qualified in |
| ReleasePipeline.PassedSetPromotes | src/onebridge/release_pipeline.py:109-118 | the promotion of a set that passed has nothing left to object to |
| DeploymentRegistry.SwitchSound | src/onebridge/deployment_switch.py:493-507 | demoting every other active row and activating the target keeps at most one active slot, and leaves a standby slot only beside an active one |
| DeploymentRegistry.RollbackSound | src/onebridge/deployment_switch.py:565-590 | a rollback that demotes only the first active row it finds still leaves exactly one active slot |
| DeploymentRegistry.EditSound | src/onebridge/deployment_switch.py:254-338 | registration and health records keep the same |
| DeploymentRegistry.UpdateSound | src/onebridge/deployment_switch.py:254-694 | no transaction changes the endpoint or version of a slot that stays active; promotion and rollback activate only on healthy evidence inside the age window at commit |
| DeploymentRegistry.EveryRunIsSafe | src/onebridge/deployment_switch.py:233-606 | over every interleaving of slot transactions: at most one active slot, exactly one once any was activated, standby implies an active slot, and every step keeps the guarantees above |
| SwitchJournal.JournalCoversTraffic | src/onebridge/deployment_switch.py:354-525 | in every state of every run, broken off at any point, if the traffic is not on the registry's active slot then a pending, actuated or reconcile_required row leads to the slot that has it |
| SwitchJournal.EveryRunIsCovered | src/onebridge/deployment_switch.py:354-694 | the same from the empty database, together with the soundness of the slot table |
| SwitchJournal.ReconcileRestores | src/onebridge/deployment_switch.py:608-694 | a completed reconcile puts the registry where the traffic is |
| SwitchJournal.CrashStrandsExactly | src/onebridge/deployment_switch.py:402-694 | breaking off leaves the registry right or the true observation acceptable iff the switch is not between the traffic move and the closing of its row, or the newest asking row already names the slot with the traffic |
| SwitchJournal.RecoverableExactly | src/onebridge/deployment_switch.py:402-694 | over any run from such a state: every disagreement between operations can be reconciled iff every break-off was harmless in that sense |
| SwitchJournal.EveryRunRecoversExactly | src/onebridge/deployment_switch.py:354-694 | the same from the empty database |
| SwitchJournal.CrashCanStrand | src/onebridge/deployment_switch.py:402-442 | a concrete run broken off between actuation and commit: traffic and registry disagree and no observation is accepted |
| SwitchJournal.EndingIsRun | src/onebridge/deployment_switch.py:354-606 | however a switch of the service ends, each journal write and the last read succeeding or raising, it is a run of the journal machine |
| DeploymentSwitch.DeploymentSwitchService.Register | src/onebridge/deployment_switch.py:254-305 | an active slot cannot be replaced; new endpoint or version clears the evidence |
| DeploymentSwitch.DeploymentSwitchService.RecordHealth | src/onebridge/deployment_switch.py:307-338 | health and its time are recorded on the slot and nothing else changes |
| DeploymentSwitch.DeploymentSwitchService.Actuate | src/onebridge/deployment_switch.py:354-442 | nothing moves before the row is pending; afterwards the row is failed, actuated, or still pending when that write raises; returns normally exactly when the traffic moved and the row says so |
| DeploymentSwitch.DeploymentSwitchService.Close | src/onebridge/deployment_switch.py:508-525 | the final status of the row, and a normal return exactly when the registry followed and the write and the last read went through |
| DeploymentSwitch.DeploymentSwitchService.Promote | src/onebridge/deployment_switch.py:444-525 | every ending, for every outcome of the actuator, the registry commit, the three journal writes and the last read; returns normally exactly when all of them went through |
| DeploymentSwitch.DeploymentSwitchService.CommitPromotion | src/onebridge/deployment_switch.py:478-507 | the transaction re-checks health at its own time and equals the registry's promotion step |
| DeploymentSwitch.DeploymentSwitchService.Rollback | src/onebridge/deployment_switch.py:527-606 | the most recently promoted healthy standby slot, with the same endings |
| DeploymentSwitch.DeploymentSwitchService.LatestRequired | src/onebridge/deployment_switch.py:616-627 | the newest journal row that asks for reconciliation |
| DeploymentSwitch.DeploymentSwitchService.Reconcile | src/onebridge/deployment_switch.py:608-694 | accepted iff the newest asking row leads from or to the observed slot and the version matches; then that slot is active and the row resolved; otherwise nothing changes |
| ProductionRelease.ProductionReleaseController.Run | src/onebridge/production_release.py:101-227 | error exactly on an inadmissible request and then no change; otherwise one new row; its status, the active slot, the traffic and the adapters are decided by what the run observed; all-or-nothing, and the traffic where the status says, if and only if no journal write or read raised after a switch, a way back or the adapter promotion took effect |
| ProductionRelease.ProductionReleaseController.Stages | src/onebridge/production_release.py:136-227 | the same for the stages after the row exists: qualification, probes, switch |
| ProductionRelease.ProductionReleaseController.SwitchAndRelease | src/onebridge/production_release.py:176-227 | the same from the switch on |
| ProductionRelease.ProductionReleaseController.SmokeAndPromote | src/onebridge/production_release.py:191-227 | after the switch: succeeded with the whole set active, or rolled_back, or rollback_failed, with the slot and the traffic each leaves; the set is active iff its promotion committed, and nothing else is newly active |
| ProductionRelease.ProductionReleaseController.RestorePrevious | src/onebridge/production_release.py:89-99 | rolled_back iff the service reported a way back; which slot is active and which has the traffic, whatever was reported |
| ProductionRelease.ProductionReleaseController.SwitchTraffic | src/onebridge/production_release.py:176-189 | when the switch returns, what registry and traffic it leaves, and when the newest row asks for reconciliation after a failure |
| ProductionRelease.ProductionReleaseController.Reconcile | src/onebridge/production_release.py:229-299 | accepted iff the deployment service accepts the observation; then the registry goes where the operator saw the traffic, and exactly the newest release that asked is closed, with the outcome that fits its slots |
| ProductionRelease.OutcomeIsAllOrNothing | src/onebridge/production_release.py:101-227 | what the statuses claim about the active slot, the adapters and the traffic holds iff no journal write or read raised after the switch moved the traffic, the registry followed, or the adapter promotion made a version newly active |
| ProductionRelease.SwitchFailedMayHaveLanded | src/onebridge/production_release.py:176-189 | the closing write raises: switch_failed with registry and traffic on the target, from reachable slot tables |
| ProductionRelease.SwitchFailedMayHaveMoved | src/onebridge/production_release.py:176-189 | the write that records the actuation raises: switch_failed with the traffic on the target, from reachable slot tables |
| ProductionRelease.RollbackFailedMayHaveLanded | src/onebridge/production_release.py:89-99 | the closing write of the way back raises: rollback_failed with the previous slot active, from reachable slot tables |
| ProductionRelease.RolledBackMayHavePromoted | src/onebridge/production_release.py:214-219 | the read after the adapter promotion raises: rolled_back with a new version active, from reachable slot tables |
| ProductionRelease.NewActiveExactly | src/onebridge/compatibility_service.py:206-233 | a promoted set leaves nothing newly active iff all of it was active before |
| ProductionRelease.OldRequestLabelsExactly | src/onebridge/production_release.py:176-189 | a release is labelled reconcile_required without having stranded anything iff its switch failed, wrote no row and an older newest row asks |
| ProductionRelease.OldRequestLabelsRelease | src/onebridge/production_release.py:176-189 | reachable tables and a run for which that happens and neither slot nor traffic moved |
| ProductionRelease.SwitchLeavesWayBack | src/onebridge/production_release.py:176-219 | after a switch the only slot a rollback can choose is the one that was active before, if its evidence is still current |
| ProductionRelease.SetPromoted | src/onebridge/production_release.py:214-226 | promoting a qualified set cannot be refused and leaves each installed version its adapter's only active one |
| ProductionRelease.ProbeKeepsActive | src/onebridge/production_release.py:152-169 | probing changes no slot's state |
| ReleasePlan.PlanAdapters | src/onebridge/release_operator.py:95-125 | the adapter entries of a plan, or the error of the first adapter that is not installed, a mock or blocked |
| ReleasePlan.DescribedIds | src/onebridge/release_operator.py:74-196 | the names stored in a plan are the set it was made for |
| ReleaseOperator.ProductionReleaseOperator.MakePlan | src/onebridge/release_operator.py:74-196 | a plan that describes the current slots and compatibility states, or the first error in the order target, empty set, adapters |
| ReleaseOperator.ProductionReleaseOperator.SubmitRequest | src/onebridge/release_operator.py:298-327 | a pending request with the plan, and nothing else |
| ReleaseOperator.ProductionReleaseOperator.ApproveRequest | src/onebridge/release_operator.py:364-464 | decides iff the request is pending, made by another person, and its recomputed plan has the stored fingerprint; marks it stale iff the recomputed plan has another; changes nothing otherwise |
| ReleaseOperator.ProductionReleaseOperator.ApprovePlan | src/onebridge/release_operator.py:198-250 | a direct approval, refused in two-person mode |
| ReleaseOperator.ProductionReleaseOperator.RevokeApproval | src/onebridge/release_operator.py:466-506 | revokes exactly an unconsumed approve decision |
| ReleaseOperator.ProductionReleaseOperator.Acquire | src/onebridge/release_operator.py:559-594 | takes the lease iff it is free or older than its window |
| ReleaseOperator.ProductionReleaseOperator.ReleaseLease | src/onebridge/release_operator.py:596-601 | removes only its own lease |
| ReleaseOperator.ProductionReleaseOperator.Consume | src/onebridge/release_operator.py:668-677 | consumes once; it looks at consumed_at alone |
| ReleaseOperator.ProductionReleaseOperator.Check | src/onebridge/release_operator.py:603-657 | the recomputed plan exactly when decision, consumption, people, age and fingerprint all allow the run |
| ReleaseOperator.ProductionReleaseOperator.Perform | src/onebridge/release_operator.py:659-723 | lease, consume, announce, run, outcome, release: the tables afterwards |
| ReleaseOperator.ProductionReleaseOperator.Execute | src/onebridge/release_operator.py:603-723 | runs iff the recomputed plan passes every check, the lease is free and the controller accepts the run; the release row names the slot and the adapters of the approved plan, and a release that ends succeeded leaves active exactly its slot, version, endpoint and adapter versions |
| ReleaseOperator.DescriptionUnique | src/onebridge/release_operator.py:135-196 | the tables determine the plan, so plans recomputed over the same tables have one fingerprint |
| ReleaseOperator.LandedPlan | src/onebridge/release_operator.py:657-704 | a successful run against the described tables lands the described plan |
| ReleaseOperator.PerformedKeepsApprovals | src/onebridge/release_operator.py:659-723 | executing keeps every approval traceable to its request |
| ReleaseOperator.ExecutionIsRun | src/onebridge/release_operator.py:603-723 | an undisturbed execute is a run of the concurrent system below, ending in the same tables, with one more controller run |
| ReleaseProtocol.EveryStateIsTraceable | src/onebridge/release_operator.py:298-723 | what every step of every interleaving keeps: approvals match their requests, executors read an approve decision and match it, spent approvals are distinct |
| ReleaseProtocol.DecisionKeepsApprovals | src/onebridge/release_operator.py:402-463 | deciding a request keeps every approval traceable to its request |
| ReleaseProtocol.RunsWereApproved | src/onebridge/release_operator.py:603-677 | in either mode the approval behind a run was read as an approve decision, is still one or was withdrawn later, and is consumed |
| ReleaseProtocol.OneRunPerApproval | src/onebridge/release_operator.py:603-677 | over every interleaving of request, decision, execute, revoke, crash and lease reclaim, an approval starts at most one controller run |
| ReleaseProtocol.TwoPersonRunsAreTraceable | src/onebridge/release_operator.py:364-464 | in two-person mode every run traces to one persisted request decided by approval, with the same plan, whose requester differs from the approver, who differs from the executor |
| ReleaseProtocol.OneApprovalPerRequest | src/onebridge/release_operator.py:364-464 | no request ever has two approvals |
| ReleaseProtocol.ConsumedIsNeverRevoked | src/onebridge/release_operator.py:466-506 | a consumed approval is never revoked, and a decision other than approve is final |
| ReleaseProtocol.RevokedBeforeExecute | src/onebridge/release_operator.py:466-677 | an execute that starts after the revocation completed never starts a run |
| ReleaseProtocol.AtMostOneInFlight | src/onebridge/release_operator.py:559-723 | over a whole history with any number of executors, at most one is ever between acquire and release iff the lease is never taken while a live executor has outlived its window |
| ReleaseProtocol.AcquireIsSafeExactly | src/onebridge/release_operator.py:559-594 | taking the lease keeps single flight iff no live executor has outlived its window |
| ReleaseProtocol.RevocationMissesRun | src/onebridge/release_operator.py:466-677 | from any state, whoever passed the checks and has not consumed can still run after the revocation |
| ReleaseProtocol.RevocationMissesExactly | src/onebridge/release_operator.py:466-677 | some continuation runs a revoked approval iff a live executor has passed its checks and not consumed it |
| ReleaseProtocol.RevocationCanLoseTheRace | src/onebridge/release_operator.py:603-677 | a revocation between the checks and the consume does not stop the run: a concrete interleaving |
| ReleaseProtocol.OverstayingBreaksSingleFlight | src/onebridge/release_operator.py:559-594 | an executor that outlives its window shares the flight with the one that reclaimed the lease: a concrete interleaving |
| AuditLog.AppendKeepsChain | src/onebridge/audit.py:95-140 | appending to a verifying log succeeds and leaves a verifying log with one more event |
| AuditLog.NeverRepaired | src/onebridge/audit.py:142-169 | a log that fails verification keeps its verdict whatever is appended |
| AuditLog.SameHeadSameHistory | src/onebridge/audit.py:142-169 | with an injective hash that never gives the genesis value, verifying logs with one head hold the same events |
| AuditLog.EveryInterleavingVerifies | src/onebridge/audit.py:45-140 | over every interleaving of any number of processes, crashing anywhere and cutting writes short, the file verifies iff no write was cut short inside an event and none landed on an unended line; then it holds one event per whole write |
| AuditLog.SpoiltForever | src/onebridge/audit.py:80-93 | once the last line does not parse no append succeeds again and the file never verifies |
| AuditLog.HashChainAuditLog.ReadLastHash | src/onebridge/audit.py:80-93 | the scan finds the hash of the last non-empty line, printed as a string whatever JSON value it is |
| AuditLog.HashChainAuditLog.Append | src/onebridge/audit.py:95-140 | the event that follows the last hash lands at the end of the file; on a file whose last line is ended the verdict is kept |
| AuditLog.HashChainAuditLog.Verify | src/onebridge/audit.py:142-169 | the loop computes the verdict of the specification |
| ContextForge.SortedSorts | src/onebridge/contextforge.py:125-131 | candidates are in order of priority, scope, source id, and are a permutation of what was gathered |
| ContextForge.SelectionIsBounded | src/onebridge/contextforge.py:133-174 | the bundle respects the byte and the item budget |
| ContextForge.SelectionIsDistinct | src/onebridge/contextforge.py:133-174 | no content appears twice |
| ContextForge.SelectionKeepsOrder | src/onebridge/contextforge.py:133-174 | the bundle keeps sort order |
| ContextForge.EveryCandidateIsAccounted | src/onebridge/contextforge.py:133-174 | every candidate is selected or skipped with a reason, exactly once |
| ContextForge.SelectionIsMaximal | src/onebridge/contextforge.py:133-174 | each skipped document would still break a budget or repeat a content in the finished bundle |
| ContextForge.FirstCopiesAreChosen | src/onebridge/contextforge.py:133-174 | each selected content is its first copy in sort order |
| ContextForge.CandidatesAre | src/onebridge/contextforge.py:97-123 | the candidates are exactly the values looked at that belong to the scope they were asked for |
| ContextForge.CandidatesAreBounded | src/onebridge/contextforge.py:115 | no scope contributes more than twice the item limit |
| ContextForge.GatherSkipsAre | src/onebridge/contextforge.py:97-122 | the skips are exactly the unregistered and failing providers and the values of the wrong scope |
| ContextForge.ContextForge.Gather | src/onebridge/contextforge.py:90-123 | the loops compute those candidates and skips |
| ContextForge.ContextForge.Select | src/onebridge/contextforge.py:133-174 | the loop computes the greedy selection |
| ContextForge.ContextForge.Assemble | src/onebridge/contextforge.py:90-184 | the bundle is the greedy selection over the sorted candidates of the distinct scopes, with every missing scope named |
| WorkerQueue.TwoClaimsNeedRequeue | src/onebridge/workers/queue.py:110-187 | between two claims that return the same job something requeued it, for any interleaving of workers |
| WorkerQueue.ClaimedInTurn | src/onebridge/workers/queue.py:110-128 | if the adapter's timestamps are distinct and increasing, nothing older is requeued, no other transaction holds the job and nobody finishes or fails it unclaimed, a queued job with k older queued jobs of its adapter is claimed within k+1 claims |
| WorkerQueue.SchedulingIsIdempotent | src/onebridge/workers/task_runner.py:53-77 | however often a task is scheduled it has exactly one row, which is never lost |
| WorkerQueue.WorkerQueue.SelectOldest | src/onebridge/workers/postgres_queue.py:160-180 | the oldest queued row of the adapter that no other transaction has locked |
| WorkerQueue.WorkerQueue.Claim | src/onebridge/workers/queue.py:110-128 | that row, and only it, becomes claimed by the worker |
| WorkerQueue.WorkerQueue.RequeueStale | src/onebridge/workers/queue.py:147-163 | exactly the claimed rows of the adapter without a heartbeat since the cutoff return to the queue, and their number |
| WorkerQueue.WorkerQueue.Schedule | src/onebridge/workers/task_runner.py:53-77 | inserts once; a restart re-opens only a job that has ended |
| WorkerQueue.WorkerQueue.RunOne | src/onebridge/workers/executor.py:56-92 | recovers stale jobs, claims one and finishes or fails it by the handler's outcome |
| Artifacts.LatestIsNewest | src/onebridge/release_gate.py:31-35 | where revisions grow, the gate's fold and the services' query by highest revision find the same artifact |
| ReleaseGate.EvaluateReleaseGate | src/onebridge/release_gate.py:16-71 | allows iff nothing objects; the reasons are exactly the objections, each once; the selection is the latest artifact of each required kind |
| ReleaseGate.OpensWithoutReason | src/onebridge/release_gate.py:24-63 | no reason is given exactly when the task succeeded and every required kind is present, approved and intact, nothing latest is rejected, and under review nothing latest is unapproved |
| ReleaseGate.FoldLatest | src/onebridge/release_gate.py:31-35 | the dictionary holds the first artifact with the highest revision of each kind |
| ReleaseGate.ManifestLists | src/onebridge/release.py:42-86 | a manifest is built iff there are artifacts, all of one owner and all approved; it lists each exactly once, sorted by kind and revision |
| TaskRun.TurnsKeepHistory | src/onebridge/service.py:130-281 | a run that stops after any turn leaves the kinds of each adapter all present or all absent, only adds artifacts, and without a failure leaves every required kind present |
| TaskRun.AppendKeepsHistory | src/onebridge/service.py:240-281 | appending the next revision keeps the revision chains |
| TaskRun.RevisionsAreConsecutive | src/onebridge/service.py:240-281 | each kind's revisions are exactly 1 to n, one artifact each |
| TaskRun.CompleteRunAddsNothing | src/onebridge/service.py:135-137 | a run over a complete task asks no adapter and adds nothing |
| TaskLifecycle.EveryRunIsSound | src/onebridge/service.py:116-573 | over every sequence of run (failing or crashing anywhere, its last status write included), revise, approve, release, retry and cancel: adapter-atomic artifacts, revisions 1 to n with each later one (other than releases) listing only its predecessor, inputs that only point to earlier artifacts, and reviewed success |
| TaskLifecycle.StepKeepsSound | src/onebridge/service.py:116-573 | each single operation keeps it |
| TaskLifecycle.ReviseKeepsSound | src/onebridge/service.py:351-414 | a human revision continues the chain of its parent and keeps everything above |
| TaskLifecycle.RevisionIsNewest | src/onebridge/service.py:364-400 | the revision is the newest of its kind and the newest of every other kind stays |
| TaskLifecycle.ApprovedWasDecided | src/onebridge/service.py:416-434 | in every run of a task under review, an approved artifact was named by an approving decision made when it existed |
| TaskLifecycle.ReleasedWasDecided | src/onebridge/service.py:416-486 | so everything a release manifest lists was approved by a decision |
| TaskLifecycle.ReleaseClosesGate | src/onebridge/service.py:464-533 | right after a release of a task under review the gate is shut |
| TaskLifecycle.ReopeningWasDecided | src/onebridge/service.py:416-533 | in every history, whenever the gate of a task under review is open after a release, a later decision approved the newest release artifact, made by that release or since |
| TaskLifecycle.RerunAddsNothing | src/onebridge/service.py:116-302 | a successful run leaves every required kind present, and the next run changes only the attempt count whatever the adapters answer |
| TaskLifecycle.GateAgreesWithStatus | src/onebridge/service.py:416-490 | for a task under review, in every reachable state, the gate opens iff the status is succeeded and the latest release artifact, if any, is approved |
| TaskLifecycle.GateWithoutReview | src/onebridge/service.py:286-290 | without an approval policy, in every reachable state, the gate opens iff the status is succeeded, the newest artifact of every required kind is approved and the newest release artifact, if any, is not rejected |
| TaskLifecycle.EmptyReleaseIsRefused | src/onebridge/service.py:464-486 | a task that requires nothing and needs no approval: after one run the gate opens and the manifest is refused |
| TaskLifecycle.ManifestIsBuilt | src/onebridge/service.py:477-486 | once the gate opens the manifest is refused exactly when no output is required |
| TaskLifecycle.ManifestListsNewest | src/onebridge/release.py:42-86 | and it lists exactly the newest revision of each required kind, once, in kind order |
| TaskLifecycle.UnreviewedSuccessCanBeRefused | src/onebridge/service.py:286-290 | without an approval policy a rejected, retried and re-run task succeeds and the gate still refuses it |
| TaskService.OneBridgeService.Submit | src/onebridge/service.py:51-73 | a new queued task, or the duplicate error and no change |
| TaskService.OneBridgeService.SelectOutputs | src/onebridge/service.py:210-237 | outputs are accepted only if every missing kind validates; the first output of each is taken |
| TaskService.OneBridgeService.StoreBatch | src/onebridge/service.py:240-281 | one commit stores one artifact for each missing kind with the next revision and the lineage before the batch |
| TaskService.OneBridgeService.ProduceAll | src/onebridge/service.py:130-281 | the loop over required outputs leaves the artifacts of the specification and fails exactly when it does |
| TaskService.OneBridgeService.Run | src/onebridge/service.py:116-302 | the task row of the specification, and success or failure as the row says |
| TaskService.OneBridgeService.ReviseTextArtifact | src/onebridge/service.py:351-414 | accepted iff the parent is the newest revision of its kind |
| TaskService.OneBridgeService.Approve | src/onebridge/service.py:416-462 | accepted iff every id belongs to the task; then exactly those artifacts are marked and the status recomputed |
| TaskService.OneBridgeService.Release | src/onebridge/service.py:464-548 | succeeds iff the gate opens and some output is required; the errors are exactly the gate's reasons; the manifest lists exactly the newest revisions |
| TaskService.OneBridgeService.Retry | src/onebridge/service.py:550-561 | re-queues exactly a failed or blocked task |
| TaskService.OneBridgeService.Cancel | src/onebridge/service.py:563-573 | cancels unless succeeded or cancelled |
| TaskService.CountTellsKnown | src/onebridge/service.py:420-426 | comparing the number of rows found with the number of distinct ids asked for tells whether all belong to the task |

## Left out

- HTTP routes, the command line, the review portal, LINE, the OpenClaw shim, object storage, SQL text and migrations: plumbing around the operations.
- Adapter internals (Flowise, Open Design, Hermes, MCP, the sandbox and its supervisor): their results are parameters.
- Probing over the network, URL and egress checks, redaction, identities and API keys: strings and security detail; probe verdicts are parameters.
- Evidence payloads, notes, reasons, error texts, latencies and telemetry: no decision reads them. Project status is left out for the same reason.
- Checkpoints, the revision and approval helper modules and the result contract: `run` reads none of them back.
- The manifest's digest, creation time, URIs and media types: copied, never decided on.
- `submit` as an HTTP caller sees it: that required outputs are unique is checked when the contract is parsed, so `TaskService.OneBridgeService.Submit` takes it as given.
- `register_current` with the state `active`, which skips the evidence: no caller uses it.
- SwitchJournal.JournalCoversTraffic: one operation at a time; two overlapping promotions can move the traffic in an order their commits do not follow. Edits of the slot table and break-offs are interleaved freely.
- ReleaseOperator.ProductionReleaseOperator.Execute: "what was approved is what lands" is stated for an undisturbed execute, since nothing in the code stops other writers between the fingerprint check and the end of the run.
- WorkflowGraph.AncestorIndices: the recursion limit of the language, at which the code raises on a very long chain.
- TaskLifecycle.EveryRunIsSound: operations on one task do not overlap; two runs of the same task at once are not modelled.
- WorkerQueue.ClaimedInTurn: assumes distinct increasing timestamps, that no other transaction holds the job and that nobody finishes or fails it unclaimed; the queue orders by `created_at` alone and guards neither.
- AuditLog.HashChainAuditLog.Append: a stored hash with characters outside ASCII, on which the code raises, is not told apart.
- WorkerQueue.WorkerQueue.RunOne: the finish or failure is unconditional, as in the code, which checks neither worker nor status.
- A refused commit of an operation that is one transaction (promoting or blocking one version, registering or probing a slot, reconciling): it raises and changes nothing.
- Nothing is said about progress: a claim, a probe or a run may never happen.
