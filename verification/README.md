# AAWP verification model

AAWP compiles typed workflow graphs, runs them, re-runs only what a revision touched, and stores the
artifacts with their provenance. This project models those parts in Dafny and proves what they promise.
`dafny verify dfyconfig.toml` checks all of it.

The modules, by component:

- **Graphs and orders.** `Graphs` (walks, closures, acyclicity, ranks), `Ordering` (the order on ids, stable
  sorting, sorted enumeration), `Outcomes`, `Json`.
- **Compiler.** `PathPatterns`, `GraphSearch` (three-colour search, reachability), `Workflows` (the
  representation and when it is well formed), `Validation`, `PortTypes` (what its reports say of the ports),
  `BudgetAnalysis`.
- **Schedulers.** `MultiPass` (the scan loop both share), `Scheduling` (the recursive meaning of a workflow
  and what every ready-first schedule does), `ScanOrder` (the order of the scans), `Simulator` (the
  deterministic simulator and its trace), `TraceRecords` (what a trace records),
  `DurableRunner` (the durable runner as a state machine over signals, timers, activities and failures),
  `DurableProgress` (how long its runs are and when they can finish), `DurableResults` (what they deliver).
- **Incremental recomputation.** `Revisions`, `Views` (what a node sees), `RevisionDiff`, `ChangeReasons`,
  `Impact`, `ObservedReads` (what the reasons and reports say), `Incremental` (soundness of reuse),
  `RerunClosure` (when reruns include everything downstream), `FingerprintCache`, `CachePlan` (soundness of
  the executed plan), `CacheDecisions` (what the plan answers).
- **Provenance.** `Artifacts`, `Lineage`, `RunEvents`, `Retention`, `ProvenanceCheck`, `EventHistories`,
  `BackupContent`, `BackupForms`, `Backup`, `Restore`.
- **Versioned state.** `RevisionStore`, `Promotion`, `Guard`, `GateEvaluation`, `GatePersistence` (what
  survives several promotions), `Plans`, `PlanVersions` (what a version
  holds), `PlanStore`, `BranchSelection`.
- **Verified patching.** `JsonPointer`, `ArrayIndices`, `JsonDocuments`, `AuthorityFrame` (what edits
  leave alone), `EditEffects` (what they do), `SpecRevision`,
  `SemanticDiff`.

The theorems to start from: `Incremental.IncrementalSoundness`, `CachePlan.CachePlanSoundness` and
`CacheDecisions.PlanAnswers`; `Validation.ValidateWorkflow`, `Scheduling.RaceFreedom`,
`Simulator.SimulateDeterministic` with `Simulator.TraceMeaning`, `DurableRunner.DurableSafety`,
`DurableRunner.AgreesWithSimulator`, `DurableResults.FinishedMeans` and `DurableProgress.CanFinishIff`;
`SpecRevision.VerifySpecRevision` with `SpecRevision.GenuineStaysInAuthority`, `SpecRevision.GenuineTakesEffect`
and `AuthorityFrame.FrameHoldsIffNothingMoves`; `Lineage.EveryStoreIsSound`,
`Restore.RestoreControlPlaneBackup`, `Retention.ReplanningDeletesNothing`; `Plans.EveryHistoryIsSound`,
`Plans.DigestFixesHistory`, `Promotion.GenerationsAreConsumedOnce` and `Guard.ChainIsMonotonic`.

How the source is represented:

- A digest is a free constructor over what it digests (`DigestOf(content)`), that is, an injective function.
  Taking a snapshot or a clone of a value is the identity.
- Map keys that the source joins with a separator (`nodeId:port`, `tenant\0run\0branch`) are tuples.
- Strings are ordered lexicographically. Where the source compares texts joined with a zero character, fields are
  compared one after the other.
- The value a node computes is any function of what it can see (definition, profile, consumed contracts,
  incoming edges, port declarations, schemas, workflow fields) and of what its edges deliver.
- The durable runner is a state machine whose steps are the stretches of code between two awaits.
  An activity or a projection may succeed or fail; an approval signal may arrive at any time.
- Stores are classes with the source's fields. A function gives the three or four fields as one value, each
  method is specified by a function of that value, and theorems about histories are about that function
  folded over any sequence of calls, refused ones included.
- Thrown errors are `Result` values.
- Reading a clock, checking a JSON Schema, and the text of a bundle digest, by which a backup orders its
  bundles, are parameters.

Places where the stronger statement is false, each with an example and the exact condition:

- A verifiable backup need not restore, because publishing refuses a content hash it has seen and backup
  validation does not look (`Restore.VerifiedMayNotRestore`); it restores exactly when the content hashes
  differ (`Restore.RestoreControlPlaneBackup`).
- A restored backup need not hold the events it was made from, because replaying drops elapsed times
  (`Restore.ElapsedTimeIsLost`); it does exactly when there are none (`Restore.ReproducedIffUntimed`).
- An edit exactly at an authorised array element can move its siblings
  (`SpecRevision.ElementPrefixReachesOutside`); it stays inside exactly when no element moves
  (`AuthorityFrame.FrameHoldsIffNothingMoves` for one edit, `SpecRevision.GenuineFrameIff` for a candidate
  under one prefix). Under several prefixes that condition suffices, but moves may cancel
  (`SpecRevision.MovesMayCancel`).
- Approval compares ids only, so a candidate with another document is approved under the verdict of a
  verified one (`SpecRevision.ApprovedMayNotBeVerified`); what is approved is what was verified exactly when
  its id is the digest of its content (`SpecRevision.ApprovedIsVerified`).
- Registering a run does not check its branch (`Promotion.RegisteredBranchMayBeMissing`); the active branch
  exists exactly when a move succeeded or the registered branch is stored (`Promotion.ActiveBranchExistsIff`).
- A regression node is rerun without what depends on it (`RerunClosure.RegressionLeavesSuccessor`); the
  reruns are closed downstream exactly under the condition of `RerunClosure.ClosedIffRegressionsCovered`.
- A hard gate that passed can lose its flag and disappear (`GatePersistence.HardFlagMayBeLost`); one step
  keeps it exactly when it is hard in the baseline or required (`GatePersistence.GateIsKeptIff`), and a chain
  keeps it while it is listed as hard (`GatePersistence.GateHoldsWhileHard`).
- A resolved finding can be open again (`GatePersistence.ResolvedMayReopen`), exactly under the condition of
  `GatePersistence.SettledReopensIff`.
- A verified promotion does not check that its baseline was promoted last, so the score of a run can rise
  (`Promotion.StaleBaselineRaisesScore`); what passes against a baseline keeps to a score exactly when the
  baseline does (`GatePersistence.ScoreStaysIff`).
- A durable run of a valid workflow need not finish (`DurableProgress.MayNotFinish`): it can exactly when its
  wait controls are good (`DurableProgress.CanFinishIff`).

## Model

| member | source | states |
|---|---|---|
| PathPatterns.OverlapExact | packages/compiler/src/validate.ts:12-41 | two write patterns are found to overlap exactly when some concrete path matches both |
| GraphSearch.DetectCycles | packages/compiler/src/validate.ts:255-285 | every reported path is a closed walk of the graph, and nothing is reported exactly when the graph is acyclic, self-loops included; terminates on every finite graph |
| GraphSearch.Visit | packages/compiler/src/validate.ts:263-283 | one visit keeps the three colours consistent: grey is the current path, black nodes are finished after all their successors as long as nothing was reported, and every report closes a cycle |
| GraphSearch.CanReach | packages/compiler/src/validate.ts:287-298 | true exactly when a path with at least one edge leads from start to target |
| GraphSearch.ReachableFrom | packages/compiler/src/validate.ts:550-566 | the set built by repeated passes is the closure of the roots |
| Validation.AnalyzeEdges | packages/compiler/src/validate.ts:138-188 | the producers of a target are exactly the positions of the known edges into it, the adjacency is exactly the dependency relation of the known edges, and unknown endpoints and type mismatches are reported exactly |
| Validation.AnalyzeProducers | packages/compiler/src/validate.ts:190-241 | reports exactly the declared inputs and outputs with no producer or with more than one |
| Validation.AnalyzeWrites | packages/compiler/src/validate.ts:457-488 | reports exactly the pairs of overlapping write patterns of nodes neither of which reaches the other |
| Validation.AnalyzeReachability | packages/compiler/src/validate.ts:545-602 | reports exactly the nodes and the node-fed outputs that the workflow inputs do not reach |
| Validation.ValidateWorkflow | packages/compiler/src/validate.ts:51-253 | every diagnostic names a real fault, every fault other than a cycle is reported, a cycle is reported exactly when there is one, and the result is ok exactly when ids are unique, every port has one well-typed producer, dependencies are acyclic, writes that share a path are ordered and outputs are reachable |
| Validation.AcceptedIffValid | packages/compiler/src/validate.ts:252 | absence of error diagnostics is the same as well-formedness of the workflow |
| PortTypes.AcceptedEdgesAgree | packages/compiler/src/validate.ts:43-45 | in an accepted workflow every edge joins two declared ports of the same type and the same schema version |
| PortTypes.MismatchIff | packages/compiler/src/validate.ts:138-188 | a mismatch is reported exactly where an edge joins two declared ports that differ in type or in schema version |
| PortTypes.UnknownIff | packages/compiler/src/validate.ts:138-188 | an unknown endpoint is reported exactly where an edge joins no two declared ports |
| PortTypes.KnownDependencyMeans | packages/compiler/src/validate.ts:138-188 | the dependencies followed by the checks are exactly those of edges from a declared output to a declared input |
| PortTypes.ReachableMeans | packages/compiler/src/validate.ts:545-566 | a node counts as reachable exactly when dependencies lead to it from a node that a workflow input feeds |
| BudgetAnalysis.SpendingIsBounded | packages/compiler/src/validate.ts:604-615 | no run that keeps to the declared attempts, rounds and costs spends more than the computed worst case |
| BudgetAnalysis.WorstCaseIsReached | packages/compiler/src/validate.ts:610-615 | some permitted run spends exactly the computed worst case |
| BudgetAnalysis.AnalyzeBudget | packages/compiler/src/validate.ts:604-627 | reports an excess exactly when some permitted spending exceeds the limit |
| BudgetAnalysis.NodeWorstMeans | packages/compiler/src/validate.ts:604-615 | attempts times cost times rounds, where a loop without a limit counts 51 rounds and a node without a cost is free |
| MultiPass.PassesSound | packages/runtime-core/src/index.ts:192-259 | repeated scans take items at most once, each after everything it needs, and stop only at a fixpoint |
| MultiPass.IdlePassMeansNoneReady | packages/runtime-core/src/index.ts:193-207 | a scan that takes nothing has met no ready item |
| MultiPass.PassesCompleteIff | packages/runtime-core/src/index.ts:192-265 | scanning takes every item exactly when every requirement is an item and requirements are acyclic |
| ScanOrder.LateForAReason | packages/runtime-core/src/index.ts:192-259 | an item that is taken after a larger one needs something that was not taken before the larger one, or that comes after it in the scan |
| ScanOrder.OrderIsAscendingWherePossible | packages/runtime-core/src/index.ts:181-259 | in the order of the simulator and the runner a node runs before every node with a larger id unless it depends on a node not yet run then, or on one with a larger id |
| Scheduling.ScheduleComputesEval | packages/runtime-core/src/index.ts:192-259 | any ready-first schedule of a valid workflow gives each node it ran the value of the recursive meaning of the workflow, for every executor |
| Scheduling.EvalMeans | packages/runtime-core/src/index.ts:209-255 | what a node means: its function applied to inputs that hold, under each port an edge leads to, the workflow input or the output of the node the edge comes from, and nothing else |
| Scheduling.ScheduleIndependence | packages/runtime-core/src/index.ts:192-259 | two ready-first schedules of the same nodes end with the same outputs |
| Scheduling.NoStall | packages/runtime-core/src/index.ts:192-265 | with all declared inputs supplied, scanning a valid workflow in any node order runs every node |
| Scheduling.ReadyReceivesAllInputs | packages/runtime-core/src/index.ts:197-216 | a node whose predecessors ran receives exactly its declared inputs and none is undefined |
| Scheduling.OutputsProduced | packages/runtime-core/src/index.ts:273-287 | once all nodes have run every workflow output has a producing edge and a value |
| Scheduling.RaceFreedom | packages/compiler/src/validate.ts:457-488 | at no point of any schedule of an accepted workflow does a concrete path match write patterns of two different startable unfinished nodes |
| Simulator.ValidateFixture | packages/runtime-core/src/index.ts:98-161 | accepts exactly the fixtures that supply the declared input ports and no others, with conforming values; reports exactly the missing ports, the extra ones and the values that do not conform |
| Simulator.GatherInputs | packages/runtime-core/src/index.ts:209-216 | the input loop computes what the incoming edges carry, and tells whether any value was undefined |
| Simulator.SimulateNode | packages/runtime-core/src/index.ts:217-255 | emits one start per round, a note for a skipped side effect and one completion, and produces the declared outputs |
| Simulator.ConsiderNode | packages/runtime-core/src/index.ts:195-257 | one scan step runs the node exactly when it is unfinished and ready, and keeps outputs, remaining set and events consistent with the order so far |
| Simulator.RunNodes | packages/runtime-core/src/index.ts:192-259 | the main loop ends with the nodes executed in the order of the repeated scans |
| Simulator.ProduceOutputs | packages/runtime-core/src/index.ts:273-293 | with inputs supplied to a valid workflow every declared output is found and emitted |
| Simulator.SimulateDeterministic | packages/runtime-core/src/index.ts:163-305 | a valid workflow with its inputs always yields a complete trace; any successful run completes exactly the nodes in scan order; a stall reports exactly the nodes the scans never reach; a refused output is named, with whether an edge leads to it |
| Simulator.TraceMeaning | packages/runtime-core/src/index.ts:163-305 | in the trace every node completes exactly once after everything it depends on, and every workflow output is what its edge carries in the meaning of the workflow |
| TraceRecords.TraceDescribes | packages/runtime-core/src/index.ts:217-255 | each node leaves one start per round, one note if it is a side effect, and one completion with a placeholder per declared output, after exactly the nodes completed before it, given what its sources mean |
| TraceRecords.TracePorts | packages/runtime-core/src/index.ts:163-175 | a trace records as inputs exactly the fixture values and as outputs exactly the outputs of the workflow |
| TraceRecords.TraceLayout | packages/runtime-core/src/index.ts:175-292 | a trace begins with its inputs and ends with its outputs, each in ascending order of ports, one for each |
| Simulator.OrderIsComplete | packages/runtime-core/src/index.ts:192-265 | the scan order of a supplied valid workflow is a schedule of all its nodes |
| DurableRunner.RunToAwait | packages/runtime-temporal/src/workflows.ts:92-178 | the nested loops up to the next await compute one transition of the state machine |
| DurableRunner.FinishLoop | packages/runtime-temporal/src/workflows.ts:180-208 | the final loop over the outputs ends completed, or failed at the first missing output |
| DurableRunner.RunInvariant | packages/runtime-temporal/src/workflows.ts:60-216 | every state of every run, under any interleaving of signals, timers, activities and failures, satisfies the bookkeeping invariant |
| DurableRunner.DurableSafety | packages/runtime-temporal/src/workflows.ts:60-216 | completed node ids are duplicate-free and predecessor-closed, the queried status is a prefix of them, and they are a prefix of the simulator's order |
| DurableRunner.RunningNodeIsReady | packages/runtime-temporal/src/workflows.ts:99-158 | an activity runs only for an unfinished node all of whose predecessors are finished |
| DurableRunner.AgreesWithSimulator | packages/runtime-temporal/src/workflows.ts:92-178 | a finished run completed every node in the order of the simulator's completion events |
| DurableRunner.DurableNeverStalls | packages/runtime-temporal/src/workflows.ts:172-200 | a valid workflow with its inputs never fails as stalled or for a missing output |
| DurableRunner.ApprovalGate | packages/runtime-temporal/src/workflows.ts:132-143 | the step that starts the activity of an approval node finds an approved decision stored for it |
| DurableRunner.ApprovalsAreSignalled | packages/runtime-temporal/src/workflows.ts:70-72 | in any run an approval node was started only if an approval was signalled for it before |
| DurableRunner.DurableComputesMeaning | packages/runtime-temporal/src/workflows.ts:106-170 | for every executor the stored outputs of completed nodes are those of the recursive meaning of the workflow, however the run was interleaved |
| DurableResults.FinishedMeans | packages/runtime-temporal/src/workflows.ts:180-216 | whatever the activities compute and however the run was interleaved, a finished run returns exactly the declared outputs, each the workflow input or the node output its edge comes from, and reports completion |
| DurableResults.ActivityReceives | packages/runtime-temporal/src/workflows.ts:106-155 | every activity is given, under each port an edge leads to, the workflow input or the node output the edge comes from, and nothing else |
| DurableResults.WaitsFirst | packages/runtime-temporal/src/workflows.ts:115-143 | a wait node comes to its activity only by its timer and an approval node only by an approval |
| DurableResults.FailureMeans | packages/runtime-temporal/src/workflows.ts:100-178 | one event fails a run exactly at a rejected approval, a failed activity, outputs on other ports or a failed projection, and names the node; after a completed node a run fails only at a wait node without a wait, at a stall or at a missing output |
| DurableResults.StatusIsCurrent | packages/runtime-temporal/src/workflows.ts:108-143 | in every state that has not failed the status names the node in hand, the phase of its kind and the nodes completed; at the end it names no node |
| DurableProgress.EffectsAreBounded | packages/runtime-temporal/src/workflows.ts:92-178 | in a run of any length, whatever arrives, at most three events for each node have an effect, signals apart |
| DurableProgress.NeverDeadlocks | packages/runtime-temporal/src/workflows.ts:128-170 | every run that is not over is moved on by a timer, an approval, a result with the declared ports or a projection; with supplied inputs and good wait controls this does not fail unless the awaited approval is rejected |
| DurableProgress.CanFinish | packages/runtime-temporal/src/workflows.ts:92-208 | with supplied inputs and good wait controls every run that has neither failed nor come to a rejected approval can be carried to its end by approvals, timers and successes alone, never coming to a rejected approval |
| DurableProgress.CanFinishIff | packages/runtime-temporal/src/workflows.ts:115-208 | a workflow with its inputs supplied has a finished run if and only if every wait control is a non-negative integer |
| DurableProgress.MayNotFinish | packages/runtime-temporal/src/workflows.ts:115-122 | a valid workflow of one wait node, which needs no inputs: without a wait control none of its runs finishes |
| Revisions.PatchMap | packages/impact-engine/src/revision.ts:69-77 | the loop over patch entries replaces the patched keys, deletes those patched with null and keeps all others |
| RevisionDiff.DiffInputs | packages/impact-engine/src/diff.ts:134-144 | marks exactly the consumers of the workflow inputs whose pinned artifact changed |
| RevisionDiff.DiffContracts | packages/impact-engine/src/diff.ts:146-167 | marks exactly the consumers of changed contracts, and every node for a changed contract nobody consumes |
| RevisionDiff.DiffNodes | packages/impact-engine/src/diff.ts:169-226 | marks exactly the added nodes, the changed definitions and the nodes whose port schemas changed |
| RevisionDiff.DiffEdges | packages/impact-engine/src/diff.ts:186-204 | marks exactly the target nodes of edges present on one side only and counts such edges per workflow output |
| RevisionDiff.DiffFields | packages/impact-engine/src/diff.ts:206-253 | marks every node exactly for the workflow-level fields that differ |
| RevisionDiff.DiffInputSchemas | packages/impact-engine/src/diff.ts:228-238 | marks exactly the consumers of workflow inputs whose port declaration changed |
| RevisionDiff.DiffProfiles | packages/impact-engine/src/diff.ts:255-282 | marks exactly the nodes whose execution profile was removed or differs in some item, one reason per item |
| RevisionDiff.DiffRevisionStates | packages/impact-engine/src/diff.ts:125-290 | the roots are exactly the candidate nodes to which some reason applies, ascending, each with exactly its reasons; removed ids are exact, and so are the reasons that concern only the workflow, counted per output |
| ChangeReasons.RootsMean | packages/impact-engine/src/diff.ts:125-290 | a node is listed with a reason exactly when what the reason says is true of the two revisions, spelled out reason by reason in their own fields |
| Impact.Downstream | packages/impact-engine/src/invalidate.ts:94-114 | the breadth-first loop finds exactly the nodes reachable from its start |
| Impact.InvalidateRoots | packages/impact-engine/src/invalidate.ts:94-114 | each root gives its own reasons to itself and an upstream reason to exactly its strict descendants |
| Impact.InvalidateReads | packages/impact-engine/src/invalidate.ts:116-148 | an undeclared read marks exactly the reader and its descendants, an unknown id marks everything, and exactly the bad reads are violations |
| Impact.InvalidateBroad | packages/impact-engine/src/invalidate.ts:150-160 | a regression node is marked without its descendants; an unknown id marks everything |
| Impact.ComputeImpact | packages/impact-engine/src/invalidate.ts:75-185 | one decision per node, ascending, with exactly the reasons that apply, rerun exactly when there is one, mandatory exactly when forced, exactly the violations, and the removed ids and workflow reasons of the comparison |
| ObservedReads.ReportedIffUndeclared | packages/impact-engine/src/invalidate.ts:116-138 | a read is reported exactly when it was observed and no read pattern of its node is a star, a directory with everything below it that holds the read, or the read itself |
| ObservedReads.ReportedRunsAgain | packages/impact-engine/src/invalidate.ts:116-148 | a reported reader and everything downstream of it must run again |
| Incremental.RerunIff | packages/impact-engine/src/invalidate.ts:85-172 | with reasoned roots a node reruns exactly when it is reflexively reachable from a root or ill-declared reader, is a regression node, or an unknown id was supplied |
| Incremental.MandatoryIff | packages/impact-engine/src/invalidate.ts:116-172 | mandatory reruns are the same set without the closure of the ordinary roots |
| RerunClosure.ClosedIffRegressionsCovered | packages/impact-engine/src/invalidate.ts:85-172 | everything downstream of a rerun node is rerun if and only if an unknown id was supplied or every successor of a regression node is in the set itself or below a root or an ill-declared reader |
| RerunClosure.RegressionLeavesSuccessor | packages/impact-engine/src/invalidate.ts:150-159 | that may fail: in a valid workflow of two nodes a regression node is rerun and the node that takes its output is reused |
| Incremental.SameView | packages/impact-engine/src/diff.ts:125-290 | a node to which no reason applies has the same definition, profile, contracts, edges, ports, schemas and workflow fields in both revisions |
| Views.ViewsAgreeIff | packages/impact-engine/src/diff.ts:125-290 | two revisions look the same to a node exactly when its definition, profile, consumed contracts, incoming edges, wired workflow inputs, port schemas and the workflow fields agree |
| Views.DeliveriesMean | packages/impact-engine/src/revision.ts:13-19 | an edge delivers the pinned artifact of its workflow input or that port of what its node produced |
| Incremental.UnreachedKeepsValue | packages/impact-engine/src/invalidate.ts:94-172 | a node that no root reaches exists in the parent and has the same from-scratch value there, for every node function |
| Incremental.IncrementalSoundness | packages/impact-engine/src/invalidate.ts:75-185 | every node the analysis marks for reuse, on the roots of the comparison, has the same value in a from-scratch run of the candidate as in the parent |
| FingerprintCache.InMemoryFingerprintCache.Put | packages/artifact-store/src/cache.ts:64-74 | the first artifact of a key stays; the same artifact is accepted again, a different one is refused |
| FingerprintCache.FirstPutWins | packages/artifact-store/src/cache.ts:61-79 | after any puts a key holds what it held or the first entry put for it, and nothing else is stored |
| FingerprintCache.HonestyPreserved | packages/artifact-store/src/cache.ts:61-79 | a property of all entries put is a property of all entries stored |
| FingerprintCache.FingerprintIgnoresSecretOrder | packages/artifact-store/src/cache.ts:27-32 | two nodes have the same fingerprint exactly when they agree up to the order of their secret references |
| CachePlan.PlanCoversImpact | packages/impact-engine/src/explain.ts:61-135 | the plan decides every impact decision once and its summary counts add up to their number |
| CacheDecisions.PlanAnswers | packages/impact-engine/src/explain.ts:61-135 | every decision is answered, by ascending node: the parent artifact exactly when the node need not run again, is reusable, kept its fingerprint and has one; a cached artifact exactly when none of that holds, nothing contradicts and the cache has the key; otherwise a rerun, with the reason; the summary counts each kind |
| CacheDecisions.AnswerIsUnique | packages/impact-engine/src/explain.ts:61-135 | action and reasons of a decision are determined by these conditions |
| CacheDecisions.MandatoryRunsAgain | packages/impact-engine/src/explain.ts:66-83 | a node that must run again, or has no evidence, runs again whatever evidence and cache hold |
| CachePlan.NamedArtifactIsRight | packages/impact-engine/src/explain.ts:66-120 | an artifact the plan takes from the parent or the cache is the one a from-scratch run would produce |
| CachePlan.PlanSoundness | packages/impact-engine/src/explain.ts:61-135 | carrying out a justified plan gives every node the artifact of a full re-execution |
| CachePlan.HonestCacheKept | packages/artifact-store/src/cache.ts:61-79 | if every entry ever put is a real result, in whatever order, an honest cache stays honest, which the soundness of the plan assumes |
| CachePlan.CachePlanSoundness | packages/impact-engine/src/explain.ts:61-135 | from comparison through impact to plan: with an injective fingerprint, matching evidence and an honest cache, the executed plan gives every candidate node the artifact of a full re-execution |
| RevisionStore.InMemoryRevisionStore.Put | packages/impact-engine/src/revision.ts:122-128 | stores a branch once; a second branch of the same key is refused |
| RevisionStore.InMemoryRevisionStore.RegisterBase | packages/impact-engine/src/revision.ts:92-94 | stores a base branch, which has no parent |
| RevisionStore.InMemoryRevisionStore.CreateRevision | packages/impact-engine/src/revision.ts:96-116 | succeeds exactly when the parent exists and the branch does not, and stores the patched parent state |
| RevisionStore.DerivedMeans | packages/impact-engine/src/revision.ts:69-120 | the stored revision holds its own identity and the state of its parent with the patched entries replaced or gone and all others kept |
| RevisionStore.BranchesAreImmutable | packages/impact-engine/src/revision.ts:89-129 | no later call changes or removes a stored branch |
| RevisionStore.EveryParentExists | packages/impact-engine/src/revision.ts:96-116 | in every reachable store the parent of a branch is a branch of the same run |
| RevisionStore.ParentChainsEnd | packages/impact-engine/src/revision.ts:96-116 | following parents from any branch ends at a base branch |
| RevisionStore.PresentIffStored | packages/impact-engine/src/revision.ts:89-129 | a branch is in the store exactly when some call stored it under a free key, a revision having found its parent |
| RevisionStore.StoredIsKept | packages/impact-engine/src/revision.ts:89-129 | what a call stored is there ever after: a base without a parent, or the revision of its parent |
| Promotion.InMemoryBranchPointerStore.Register | packages/impact-engine/src/promotion.ts:55-66 | registers a run once with a non-negative generation, without looking for the branch |
| Promotion.RegisteredMeans | packages/impact-engine/src/promotion.ts:55-70 | a first registration sets branch and generation, a later one changes nothing |
| Promotion.MoveMeans | packages/impact-engine/src/promotion.ts:76-139 | a call moves a pointer exactly when it is admitted, its generation is the current one and its branch is stored; the pointer then names the branch at the next generation, and nothing else changes |
| Promotion.InMemoryBranchPointerStore.CompareAndSwap | packages/impact-engine/src/promotion.ts:72-92 | moves the pointer and raises the generation by one exactly when the expected generation is current |
| Promotion.CandidatePromoter.Promote | packages/impact-engine/src/promotion.ts:101-116 | succeeds exactly when the gate passed, the branch exists and the generation is current; otherwise nothing moves |
| Promotion.CandidatePromoter.Rollback | packages/impact-engine/src/promotion.ts:118-131 | succeeds exactly when the branch exists and the generation is current; otherwise nothing moves |
| Promotion.VerifiedCandidatePromoter.Promote | packages/verifier-sdk/src/promotion.ts:30-68 | succeeds exactly when the evidence is in context, intact and passes the gate, the branch exists and the generation is current; otherwise nothing moves; a refusal names the first of these that fails |
| Promotion.GenerationsAreConsumedOnce | packages/impact-engine/src/promotion.ts:52-137 | under any interleaving of calls the generation is the initial one plus the successes, the n-th success used the n-th generation, and after a success the active branch is the last one moved to and exists |
| Promotion.StaleCallersLose | packages/impact-engine/src/promotion.ts:72-92 | no two successes of a run were made with the same generation |
| Promotion.UnregisteredNeverMoves | packages/impact-engine/src/promotion.ts:80 | a run that is not registered at the end never had a successful move |
| Promotion.RegisteredBranchMayBeMissing | packages/impact-engine/src/promotion.ts:55-66 | before a first success the active branch need not exist: a registration that shows it |
| Promotion.ActiveBranchExistsIff | packages/impact-engine/src/promotion.ts:55-137 | after any calls the active branch of a registered run exists if and only if a move succeeded or the branch it was registered with is stored |
| Promotion.VerifiedHistoryIsMonotonic | packages/verifier-sdk/src/promotion.ts:30-68 | if the successful moves of a run were verified one against the next, the blocking score never rose and tenant, run and verifier stayed the same, whatever calls lay between |
| Promotion.StaleBaselineRaisesScore | packages/verifier-sdk/src/promotion.ts:30-68 | without that hypothesis it may rise: wherever a run is registered and the branch stored, two verified moves that succeed one after the other, the second with the higher score |
| Guard.ScoreMeaning | packages/verifier-sdk/src/guard.ts:57-77 | the score is zero exactly when nothing is open, and bounds a thousand times the open blocking findings |
| Guard.ScoreBySeverity | packages/verifier-sdk/src/guard.ts:57-81 | the score is 1000 for each open blocking finding, 100 for each high, 10 for each medium and 1 for each low one |
| Guard.IdentityChangedMeans | packages/verifier-sdk/src/guard.ts:148-170 | a changed identity is reported exactly when a finding kept its id with another verifier, requirement, class, severity or reason code |
| Guard.UnauthorizedMeans | packages/verifier-sdk/src/guard.ts:210-214 | a written path is reported exactly when no authorised pattern is a star, the path itself, or a directory above it |
| Guard.TieIsNeverDecisive | packages/verifier-sdk/src/guard.ts:225-236 | the tie case of the score rule never refuses a candidate that no other rule refuses |
| Guard.ChainIsMonotonic | packages/verifier-sdk/src/guard.ts:87-236 | along any chain of promotions the score and the scope violations never rise, the context never changes, and open blocking findings stay under the initial score |
| GatePersistence.GateIsKeptIff | packages/verifier-sdk/src/guard.ts:134-145 | where some candidate passes, all passing candidates pass a gate if and only if the baseline passed it as a hard gate or the policy requires it |
| GatePersistence.GateHoldsWhileHard | packages/verifier-sdk/src/guard.ts:134-140 | along a chain of promotions a passed gate stays passed as long as every bundle on the way lists it as hard |
| GatePersistence.HardFlagMayBeLost | packages/verifier-sdk/src/guard.ts:134-140 | otherwise it may be lost: three intact bundles, each passing against the one before, of which the first passed a hard gate and the last does not have it |
| GatePersistence.SettledReopensIff | packages/verifier-sdk/src/guard.ts:147-260 | where some candidate passes, a settled finding can be open in a passing candidate if and only if it is no target, its weight is within the old score, and an open blocking finding is allowed if it is one |
| GatePersistence.ResolvedMayReopen | packages/verifier-sdk/src/guard.ts:147-236 | a passing candidate in which a resolved finding is open again |
| GatePersistence.ScoreStaysIff | packages/verifier-sdk/src/guard.ts:216-236 | whatever passes against an intact baseline, under any policy, keeps to a given score if and only if the baseline itself does |
| GateEvaluation.VerifyEvidenceBundleIntegrity | packages/verifier-sdk/src/evidence.ts:126-136 | accepts exactly the bundles with distinct finding, gate and evidence ids, own findings, provided evidence artifacts and a matching digest; a refusal names a repeated id, else a foreign finding, else missing evidence, else the digest |
| GateEvaluation.ReconcileFindings | packages/verifier-sdk/src/classification.ts:112-134 | lists, sorted, exactly the open findings now settled, the new ones, and the open ones that are gone |
| GateEvaluation.EvaluateMonotonicCandidate | packages/verifier-sdk/src/guard.ts:116-274 | on intact bundles reports every violation and nothing else, passes exactly when there is none, and reports both scores, both counts of open blocking findings and the resolved findings |
| Lineage.InMemoryArtifactLineage.Publish | packages/lineage/src/index.ts:108-135 | publishes exactly the artifacts with a new id, new content and known parents of the same tenant; a refusal names the first cause and changes nothing |
| Lineage.InMemoryArtifactLineage.Traverse | packages/lineage/src/index.ts:152-192 | returns exactly the transitive relatives without the root, ascending, and exactly the edges met at the root and at them, each once, in the order of the breadth-first walk |
| Lineage.InMemoryArtifactLineage.AncestorsOf | packages/lineage/src/index.ts:144-146 | the traversal towards ancestors |
| Lineage.InMemoryArtifactLineage.DescendantsOf | packages/lineage/src/index.ts:148-150 | the traversal towards descendants |
| Lineage.WalkFrom | packages/lineage/src/index.ts:159-185 | the queue loop visits exactly the closure of the root and selects exactly the edges at visited nodes, each once, node by node in the order of discovery |
| Lineage.WalkIsUnique | packages/lineage/src/index.ts:159-185 | from a root there is only one breadth-first walk, so the order of the listed edges is determined |
| Lineage.AdjacentAscends | packages/lineage/src/index.ts:165-177 | the edges at one node come in ascending order of parent, then child, then type |
| Lineage.EveryStoreIsSound | packages/lineage/src/index.ts:108-135 | after any sequence of publishes the edge graph is acyclic, stays inside tenants and equals the recorded provenance, and the content index is exact |
| Lineage.StoreOnlyGrows | packages/lineage/src/index.ts:121-134 | later publishes never change or remove artifacts or edges |
| Lineage.StoredIffPublished | packages/lineage/src/index.ts:108-135 | the store holds an id exactly when some attempt published it |
| Lineage.PublishedIsHeld | packages/lineage/src/index.ts:121-134 | what an attempt published is held ever after as it was then |
| Lineage.RelativesAreProper | packages/lineage/src/index.ts:152-192 | what a traversal returns are the proper ancestors or descendants in the edge graph |
| Lineage.AncestorsMirrorDescendants | packages/lineage/src/index.ts:144-150 | one artifact is an ancestor of another exactly when the other is its descendant |
| Lineage.RelativesShareTenant | packages/lineage/src/index.ts:115-118 | a traversal never leaves the tenant it starts in |
| Artifacts.SnapshotKeepsProvenance | packages/lineage/src/index.ts:87-101 | storing an artifact only reorders its tags and provenance |
| Artifacts.SnapshotAscends | packages/lineage/src/index.ts:87-102 | storing changes nothing else: tags ascend, and provenance ascends by parent and then by type |
| RunEvents.InMemoryRunEventStore.Append | packages/runtime-core/src/events.ts:95-121 | appends exactly the events of the run's tenant with the expected number and a fresh key, with the next number; a refusal names its cause in order of precedence and changes nothing |
| RunEvents.InMemoryRunEventStore.List | packages/runtime-core/src/events.ts:123-127 | returns the events of the run, or refuses another tenant |
| RunEvents.EveryLogIsSound | packages/runtime-core/src/events.ts:90-128 | in every reachable log the numbers of a run count from one without a gap, keys are distinct and the tenant is one |
| RunEvents.RunsOnlyGrow | packages/runtime-core/src/events.ts:116 | what a run has recorded stays in place |
| RunEvents.TakenIsRecorded | packages/runtime-core/src/events.ts:95-121 | what a run took is recorded ever after under the number it got |
| RunEvents.RecordedWasTaken | packages/runtime-core/src/events.ts:95-121 | every recorded event was taken by some attempt, at the length the run then had |
| RunEvents.RebuildProjection | packages/runtime-core/src/events.ts:130-140 | folds the reducer over the listed events in order |
| RunEvents.ProjectionContinues | packages/runtime-core/src/events.ts:137-139 | a projection can be continued from any point of the log |
| ProvenanceCheck.AssertProvenanceDag | packages/control-plane/src/backup.ts:82-105 | accepts exactly the parent-closed, acyclic provenances; a refusal lists artifacts left over |
| ProvenanceCheck.NeedsDescribeProvenance | packages/control-plane/src/backup.ts:83-88 | for distinct ids the map that is checked describes the provenance lists |
| EventHistories.CountedDecides | packages/control-plane/src/backup.ts:156-176 | the counters decide exactly whether an event can come next in its run |
| EventHistories.SortKeepsSequence | packages/control-plane/src/backup.ts:68-70 | sorting by run and number keeps a gap-free history gap-free |
| BackupContent.NormalizeIsIdempotent | packages/control-plane/src/backup.ts:58-76 | a normal form is its own normal form |
| BackupForms.NormalFormMeans | packages/control-plane/src/backup.ts:58-76 | normalising only rearranges the four lists |
| BackupForms.NormalFormAscends | packages/control-plane/src/backup.ts:62-75 | workflows ascend by id and version, events by run and number, artifacts by id, bundles by the text of their id |
| BackupForms.ForbiddenIff | packages/control-plane/src/backup.ts:106-123 | a payload is refused exactly when some object in it, however deep, has a key that in lower case is one of the six forbidden ones |
| BackupForms.LowerCaseMeans | packages/control-plane/src/backup.ts:121 | lower case moves the letters A to Z and nothing else |
| BackupContent.CheckWorkflows | packages/control-plane/src/backup.ts:130-137 | accepts exactly lists of valid workflows with distinct id and version |
| BackupContent.CheckArtifacts | packages/control-plane/src/backup.ts:138-155 | accepts exactly artifacts of the tenant with distinct ids, present parents and acyclic provenance |
| BackupContent.CheckEvents | packages/control-plane/src/backup.ts:156-176 | accepts exactly events of the tenant, free of forbidden payload keys, that count from one per run under fresh keys |
| BackupContent.CheckBundles | packages/control-plane/src/backup.ts:177-196 | accepts exactly the bundles that are intact as the gate checks it, are of the tenant, have distinct ids and refer to present artifacts |
| BackupContent.ValidateContent | packages/control-plane/src/backup.ts:125-197 | accepts exactly the valid contents; a refusal names a fault of the first part that is not valid |
| Backup.CreateControlPlaneBackup | packages/control-plane/src/backup.ts:199-205 | succeeds exactly when the normal form is valid and seals it |
| Backup.VerifyControlPlaneBackup | packages/control-plane/src/backup.ts:207-216 | succeeds exactly when the content is valid and the id is the digest of its normal form; with valid content a refusal is that of the digest |
| Backup.CreatedIsVerified | packages/control-plane/src/backup.ts:199-216 | verifying a created backup succeeds and returns it unchanged |
| Backup.VerifiedIsCreatable | packages/control-plane/src/backup.ts:199-216 | what verification returns could have been created and verifies again, whatever order its lists came in |
| Backup.NormalizeKeepsValid | packages/control-plane/src/backup.ts:58-76 | normalising a valid content keeps it valid |
| Restore.ScanPending | packages/control-plane/src/backup.ts:237-245 | one scan publishes ready artifacts in ascending order; without progress the provenance is incomplete or circular |
| Restore.RestoreArtifacts | packages/control-plane/src/backup.ts:230-251 | terminates, and succeeds exactly when parents are present, provenance is acyclic and no content occurs twice; then every artifact is stored up to the order of tags and provenance |
| Restore.RestoreEvents | packages/control-plane/src/backup.ts:252-265 | replaying a valid event list never fails and reproduces every run up to elapsed times, and unchanged exactly when there are none |
| Restore.RestoreControlPlaneBackup | packages/control-plane/src/backup.ts:226-274 | succeeds exactly for verifiable backups whose artifacts differ in content hash, and reproduces artifacts, events, workflows and evidence, the events unchanged exactly when none carries an elapsed time; a verifiable backup is refused only for a content hash that two artifacts share |
| Restore.ValidIsReplayable | packages/control-plane/src/backup.ts:226-251 | for valid artifacts repeated content is the only thing that can stop a restore |
| Restore.VerifiedMayNotRestore | packages/control-plane/src/backup.ts:125-197 | validation does not look for repeated content: a backup that verifies and cannot be restored |
| Restore.ReproducedIffUntimed | packages/control-plane/src/backup.ts:252-265 | the replayed runs are the runs of the backup, unchanged, if and only if no event carries an elapsed time |
| Restore.ElapsedTimeIsLost | packages/control-plane/src/backup.ts:252-265 | a backup that verifies and restores, and none of whose replays reproduces its one event |
| Retention.PlanArtifactRetention | packages/control-plane/src/operations.ts:70-134 | fails exactly on invalid days, times or missing parents; otherwise decides every id once, ascending, keeping exactly the keep set, each with its reason; a refusal names the policy, else the time, else an artifact without a time, else a missing parent |
| Retention.Classify | packages/control-plane/src/operations.ts:83-101 | every artifact gets the reason that its protection, hold and age give it |
| Retention.DecisionMeans | packages/control-plane/src/operations.ts:81-103 | an artifact goes exactly when it has expired; the reason given is protection first, then a tag on hold, then its days of 24 hours by sensitivity or default, then the need of another artifact |
| Retention.KeepAncestors | packages/control-plane/src/operations.ts:112-132 | the queue loop keeps exactly the closure of the kept artifacts under parents and marks the rescued ones |
| Retention.KeepSetIsLeast | packages/control-plane/src/operations.ts:112-132 | the keep set is the least set that contains the kept artifacts and the parents of its members |
| Retention.KeepSetShrinks | packages/control-plane/src/operations.ts:85-95 | as time passes only less is kept |
| Retention.ReplanningDeletesNothing | packages/control-plane/src/operations.ts:70-134 | planning the survivors again at the same time never fails and deletes nothing |
| PlanStore.ValidateBranches | packages/router/src/planner.ts:49-78 | accepts exactly branches with distinct ids and partitions, gains between zero and one and non-negative costs; a refusal names a branch at fault |
| PlanStore.BuildPlan | packages/router/src/planner.ts:90-103 | succeeds exactly on valid branches and yields the normal form with its digest |
| PlanStore.ApplyUpdates | packages/router/src/planner.ts:159-182 | refuses exactly a forbidden transition; otherwise updates the branches and leaves exactly the updates of unknown branches |
| PlanStore.InMemoryPlanStore.Create | packages/router/src/planner.ts:115-133 | succeeds exactly for a new plan id with valid branches |
| PlanStore.InMemoryPlanStore.Revise | packages/router/src/planner.ts:135-196 | appends a version exactly when the plan exists and takes the revision; otherwise nothing changes; a refusal names the version, else a forbidden transition, else the unknown branches, else a fault of the branches |
| PlanStore.InMemoryPlanStore.Get | packages/router/src/planner.ts:198-203 | returns the latest version, or the one with the given number if the history has it |
| Plans.EveryHistoryIsSound | packages/router/src/planner.ts:112-196 | after any calls, failing ones included, versions are consecutive, each parent digest is the previous digest, ids and partitions are unique, and each step keeps branches, definitions and evidence |
| Plans.AllowedMeans | packages/router/src/planner.ts:105-110 | a status stays, or goes from pending to running or cancelled, or from running to completed or cancelled |
| PlanVersions.RevisableMeans | packages/router/src/planner.ts:135-182 | a revision is possible exactly at the version it expects, with updates only for branches there are and only as allowed, if the resulting branches are valid |
| PlanVersions.FirstVersionMeans | packages/router/src/planner.ts:115-133 | the first version has number one, no predecessor, and the goal, reason, time and branches of its creation, by ascending id |
| PlanVersions.NextVersionMeans | packages/router/src/planner.ts:183-196 | the next version is one higher, linked to the digest of the one before, keeps the goal, and has the reason and time of the revision and the evidence of both |
| PlanVersions.NextBranches | packages/router/src/planner.ts:159-190 | its branches, by ascending id, are those before with the status and further evidence of the last update for each, and the added ones |
| Plans.HistoriesOnlyGrow | packages/router/src/planner.ts:194 | recorded versions are never changed or removed |
| Plans.RecordedIsKept | packages/router/src/planner.ts:115-196 | the version a creation or a revision recorded is there ever after |
| Plans.VersionWasRecorded | packages/router/src/planner.ts:115-196 | every version in the store was recorded by a creation or by a revision of the version before |
| Plans.VersionsEvolve | packages/router/src/planner.ts:105-196 | between any two versions no branch vanishes or changes its definition, statuses follow the transition closure and evidence only grows |
| Plans.ReachableIsClosure | packages/router/src/planner.ts:105-110 | the stated status relation is the transitive closure of the allowed transitions |
| Plans.DigestFixesHistory | packages/router/src/planner.ts:90-102 | two histories that end in the same digest are the same |
| BranchSelection.SelectNextBranches | packages/router/src/planner.ts:206-238 | refuses exactly invalid budgets; otherwise the loop computes the greedy choice over the sorted eligible branches |
| BranchSelection.GreedyStaysInBudget | packages/router/src/planner.ts:231-236 | the selection exceeds neither the number of branches nor the cost left |
| BranchSelection.GreedyRespectsPreference | packages/router/src/planner.ts:219-236 | a candidate is passed over only if the selection was full or it did not fit what preferred candidates had left |
| BranchSelection.PreferMeans | packages/router/src/planner.ts:221-229 | a branch comes first for more gain per cost, a cost below a millionth counting as a millionth, and among equals for the smaller id |
| BranchSelection.GreedyTakesIff | packages/router/src/planner.ts:231-236 | a candidate is selected exactly when after the choices before it there is room for one more and its cost fits what is left |
| BranchSelection.CostIsTotal | packages/router/src/planner.ts:231-236 | the cost of a selection is the sum over its parts, a branch counting with its own |
| BranchSelection.StopsOnlyWhenNothingFits | packages/router/src/planner.ts:231-236 | if the selection stops short of the limit no eligible branch left out fits what remains |
| BranchSelection.SelectionIsEligible | packages/router/src/planner.ts:219-236 | only pending branches with enough gain are selected, each once, by gain per cost and then id |
| BranchSelection.SelectedMeans | packages/router/src/planner.ts:219-229 | every selected branch is pending, gains at least the minimum and comes after those preferred to it |
| JsonPointer.EscapeRoundTrip | packages/control-plane/src/semantic-diff.ts:27-29 | escaping and unescaping are inverse: on every text one way, on every well-escaped slash-free segment the other |
| JsonPointer.EscapeMeans | packages/control-plane/src/semantic-diff.ts:27-29 | tilde and slash are written as ~0 and ~1 and every other character as itself, character by character |
| JsonPointer.ParseThePrinted | workflows/templates/spec-feedback-to-spec/src/pointer.ts:11-27 | parsing the escaped join of any non-empty segment list other than one empty segment, without unsafe segments, returns that list |
| JsonPointer.PrintTheParsed | workflows/templates/spec-feedback-to-spec/src/pointer.ts:22-27 | re-escaping the segments of an accepted pointer returns its text |
| JsonPointer.AcceptedIffPrinted | workflows/templates/spec-feedback-to-spec/src/pointer.ts:22-27 | a pointer is accepted exactly when it is the print of such a list |
| JsonPointer.PrintableIff | workflows/templates/spec-feedback-to-spec/src/pointer.ts:11-27 | printing and parsing give a list back exactly when it is neither empty nor one empty segment and has no reserved name |
| JsonPointer.ParseFailsWith | workflows/templates/spec-feedback-to-spec/src/pointer.ts:11-27 | a refused pointer does not start with a slash or is only that, or its first bad segment is badly escaped or reserved, and the error says which |
| JsonPointer.WithinIsSegmentPrefix | workflows/templates/spec-feedback-to-spec/src/revision.ts:96-98 | on accepted pointers the text prefix test is the prefix relation of the segment lists |
| ArrayIndices.IndexIsInjective | workflows/templates/spec-feedback-to-spec/src/pointer.ts:29-39 | two different segments never name the same element of an array |
| ArrayIndices.IndexIsNamed | workflows/templates/spec-feedback-to-spec/src/pointer.ts:29-39 | the decimal text of an index addresses that element exactly when it is in range |
| JsonDocuments.ReadJsonPointer | workflows/templates/spec-feedback-to-spec/src/pointer.ts:41-53 | the walk with a reassigned current value computes the recursive lookup, errors included |
| JsonDocuments.ResolveJsonPointerParent | workflows/templates/spec-feedback-to-spec/src/pointer.ts:55-72 | returns the value at all but the last segment and the last segment, or the first error |
| JsonDocuments.WithValueFrame | workflows/templates/spec-feedback-to-spec/src/pointer.ts:41-53 | a replaced value is seen below its position and nowhere beside it |
| JsonDocuments.ApplyOperation | workflows/templates/spec-feedback-to-spec/src/revision.ts:194-215 | resolving the parent and editing it computes the edit of the document, errors included |
| EditEffects.EditMeans | workflows/templates/spec-feedback-to-spec/src/revision.ts:194-215 | an edit applies exactly when its parent can be read and the position exists, or is the next one for an addition; then the parent is read back with that one member set or gone, or with that one element inserted, replaced or taken out and the others moved by one |
| EditEffects.EditFailsWith | workflows/templates/spec-feedback-to-spec/src/revision.ts:194-215 | a refused edit reports the error of reading its parent, an array position that is no index or does not exist, a missing member, or a parent that holds nothing |
| EditEffects.ReadStepMeans | workflows/templates/spec-feedback-to-spec/src/pointer.ts:31-68 | one step of reading takes a decimal index into an array or a member of an object, and reports which was wrong |
| EditEffects.EditIsRead | workflows/templates/spec-feedback-to-spec/src/revision.ts:194-215 | the value an edit carries is read at its path afterwards, or as the new last element for a dash |
| EditEffects.RemovedIsGone | workflows/templates/spec-feedback-to-spec/src/revision.ts:205-215 | after a removal that moves nothing the path cannot be read |
| AuthorityFrame.OperationFrame | workflows/templates/spec-feedback-to-spec/src/revision.ts:194-215 | an edit inside a prefix changes nothing that parts from the prefix, unless it is exactly at the prefix and moves array elements |
| AuthorityFrame.FrameHoldsIffNothingMoves | workflows/templates/spec-feedback-to-spec/src/revision.ts:196-204 | an edit exactly at an authorised path stays inside it if and only if it does not insert before an element, append by dash, or remove an element that is not the last |
| AuthorityFrame.EditsStayInAuthority | workflows/templates/spec-feedback-to-spec/src/revision.ts:147-215 | after any list of authorised edits every position that parts from all prefixes reads as before, as long as none moves elements exactly at a prefix |
| AuthorityFrame.OnePrefixFrameIff | workflows/templates/spec-feedback-to-spec/src/revision.ts:147-215 | for a list of edits with distinct paths under one prefix, everything that parts from the prefix reads as before if and only if no edit moves elements at the prefix |
| AuthorityFrame.TopLevelFrame | workflows/templates/spec-feedback-to-spec/src/revision.ts:147-215 | with single-segment prefixes on an object every top-level value outside them is unchanged, for lists of any length |
| AuthorityFrame.KeysAreKept | workflows/templates/spec-feedback-to-spec/src/revision.ts:205-215 | an edited object stays an object, and without removals no top-level key is lost |
| SpecRevision.CompileSpecFeedbackContract | workflows/templates/spec-feedback-to-spec/src/revision.ts:100-145 | succeeds exactly for the pinned source, valid prefixes, distinct feedback ids and targets inside the authority; the contract holds every field of the intent, with feedback by its ids; a refusal names the source, else a prefix, else a fault of the feedback |
| SpecRevision.ValidateProposal | workflows/templates/spec-feedback-to-spec/src/revision.ts:147-192 | accepts exactly operations with distinct paths inside the authority, known feedback, and a value unless they remove with leave; a refusal names a path used twice or what is wrong with one operation |
| SpecRevision.ApplyAll | workflows/templates/spec-feedback-to-spec/src/revision.ts:230-231 | the loop computes the fold of the edits, stopping at the first failure |
| SpecRevision.MaterializeSpecRevisionCandidate | workflows/templates/spec-feedback-to-spec/src/revision.ts:217-251 | succeeds exactly when the proposal is valid, the source is the pinned one, all edits apply and something changes; the candidate is determined by them and is genuine for the verifier; a refusal names the proposal, else the source, else the failing edit, else that nothing changes |
| SpecRevision.VerifySpecRevision | workflows/templates/spec-feedback-to-spec/src/revision.ts:253-315 | passes exactly when the candidate is what its operations make of the source, required pointers resolve and the profile validator is content; a genuine candidate gets no other findings; every wrong digest, a failed or differing materialisation, each missing pointer and the profile findings are reported, in this order |
| SpecRevision.GenuineIsFold | workflows/templates/spec-feedback-to-spec/src/revision.ts:217-314 | a passed candidate equals the fold of its operations over the source, is not a no-op and stays with its contract |
| SpecRevision.GenuineTakesEffect | workflows/templates/spec-feedback-to-spec/src/revision.ts:217-251 | with paths apart and no array moved a genuine candidate reads each value at the path of its operation and has nothing where something was removed |
| SpecRevision.GenuineIdentity | workflows/templates/spec-feedback-to-spec/src/revision.ts:232-251 | a genuine candidate names its parent, contract and changed paths, carries the digests of its document and of its content, and answers only known feedback |
| SpecRevision.GenuineStaysInAuthority | workflows/templates/spec-feedback-to-spec/src/revision.ts:147-314 | with top-level prefixes on an object a genuine candidate has the source's values outside them, and without leave to remove no top-level key is lost |
| SpecRevision.GenuineFrame | workflows/templates/spec-feedback-to-spec/src/revision.ts:147-314 | for prefixes of any depth positions outside them read as in the source unless an edit moves elements exactly at a prefix |
| SpecRevision.GenuineFrameIff | workflows/templates/spec-feedback-to-spec/src/revision.ts:147-314 | under one prefix that condition is exact: a genuine candidate keeps everything outside if and only if none of its edits moves elements at the prefix |
| SpecRevision.ElementPrefixReachesOutside | workflows/templates/spec-feedback-to-spec/src/revision.ts:196-204 | without that condition it fails: a genuine candidate that inserts at an authorised array element and moves its sibling |
| SpecRevision.MovesMayCancel | workflows/templates/spec-feedback-to-spec/src/revision.ts:196-215 | under two prefixes the condition is not necessary: a genuine candidate whose insertion and removal both move elements and together leave everything outside as it was |
| SpecRevision.ApprovedIff | workflows/templates/spec-feedback-to-spec/src/revision.ts:317-340 | under a right verdict a candidate is approved exactly when it has the id of the verified one, that one is genuine and acceptable, and the approval says so |
| SpecRevision.ApprovedIsVerified | workflows/templates/spec-feedback-to-spec/src/revision.ts:253-340 | a candidate approved under the verdict of a verified one is that very candidate, and is genuine, if and only if its id is the digest of its own content; then its required pointers resolve and the validator is content |
| SpecRevision.ChangedDocumentIsApproved | workflows/templates/spec-feedback-to-spec/src/revision.ts:317-329 | otherwise it need not be: any other document put into a verified candidate under the old id is approved and is not genuine |
| SpecRevision.ApprovedMayNotBeVerified | workflows/templates/spec-feedback-to-spec/src/revision.ts:317-329 | a candidate with a right verdict under which a candidate that is not genuine is approved |
| SemanticDiff.ReportsAreExact | packages/control-plane/src/semantic-diff.ts:36-54 | a pointer is reported exactly when it prints a path at which the values differ, are not both objects, and everything above them is |
| SemanticDiff.ChangedAtMeans | packages/control-plane/src/semantic-diff.ts:36-54 | the reported paths are described without recursion |
| SemanticDiff.SilentIffEqual | packages/control-plane/src/semantic-diff.ts:37 | nothing is reported exactly when nothing differs |
| SemanticDiff.NoChangeIsMissed | packages/control-plane/src/semantic-diff.ts:36-54 | wherever two documents differ a reported path leads to it or below it |
| SemanticDiff.ReportedChangesAreAuthorised | workflows/templates/spec-feedback-to-spec/src/revision.ts:147-314 | every reported change of a genuine candidate under top-level prefixes starts at an authorised key |
| Ordering.StrLeIsLexicographic | packages/runtime-core/src/index.ts:83-90 | texts are ordered by prefix or by the first difference |
| Graphs.NoSourceMeansCycle | packages/control-plane/src/backup.ts:90-99 | if every member of a non-empty finite set has a predecessor in the set there is a cycle |
| Graphs.ClosureExact | packages/impact-engine/src/invalidate.ts:94-114 | a search that stays inside the reachable nodes and stops closed has found exactly the closure |

## Left out

- Validation.ValidateWorkflow: covers duplicate ids, endpoints, port types, producers, cycles, write conflicts and reachability; the checks of structure against the schema, artifact schema references, verifier ownership, secrets, network hosts, capabilities, side effects and hidden ports are not modelled, each being settled by one branch. Accepting more workflows makes the theorems that assume acceptance stronger.
- Validation.AcceptedIffValid: speaks of the faults covered by `Validation.ValidateWorkflow`.
- Validation.AnalyzeReachability: the source computes a second set of output producers and discards it; it is not modelled.
- BudgetAnalysis.AnalyzeBudget: assumes that declared costs are not negative, as the schema demands; it is separate from the accepting condition of the validator.
- RevisionDiff.DiffRevisionStates: the texts and the order of the workflow-level reasons are not modelled; they are counted per output.
- Simulator.ValidateFixture: conformance of a value to its JSON Schema is a parameter.
- DurableRunner.RunToAwait: retries, heartbeats, time-outs, versioning patches and replay of the hosting service are not modelled.
- CachePlan.BuildCachePlan: the order of reasons inside one decision and the copied impact reasons are not modelled.
- FingerprintCache.CalculateNodeFingerprint: the canonical text and its hash are represented by the normalised input itself.
- GateEvaluation.EvaluateMonotonicCandidate: the order of the violations and the texts of their sources are not modelled.
- BackupContent.CheckWorkflows: the validity of one workflow is that of `Validation.ValidateWorkflow`, without the checks named there.
- BackupContent.ValidateContent: inherits the validity of one workflow from the check beside it, and bundles are given as values, so parsing one against its schema is not modelled.
- BackupContent.ContainsForbiddenKey: lower case is that of the letters A to Z.
- Retention.PlanArtifactRetention: days are integers, so the refusal of fractional days is not modelled; times are read by a parameter.
- BranchSelection.SelectNextBranches: costs and gains are real numbers without rounding.
- JsonDocuments.ApplyOperation: a document is a value and an edit returns a new one, so updating in place and aliasing inside a document are not captured.
- ArrayIndices.ArrayIndex: indices are unbounded naturals, not floating-point numbers.
- SemanticDiff.ChangedPaths: the typed diff of whole workflows and its impact classes are not modelled.
- The three-colour search, the breadth-first searches and the scan loops keep their working sets in values rather than in shared mutable collections.
- Producer keys are pairs, so ids that contain the separator are told apart.
- JSON values have no undefined member, no prototype chain and no order of keys.
- Canonical text, Unicode normalisation and SHA-256.
- Redaction, audit export, quotas, routing weights, the editor and graph projections: each is settled by reading one function.
- The file system, HTTP, databases and processes around these components.
