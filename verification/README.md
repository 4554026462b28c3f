# Verification of the Open-JEV decision runtime

This project models the stateful core of the repository in Dafny and proves what its design promises, over all
inputs, all interleavings and all runs. `dafny verify dfyconfig.toml` checks it. It is organised by component.

* **Batching** (`Batching`, `BatchingSafety`, `BatchingGuarantees`, `BatchingExecutor`). The bounded executor is a
  state machine whose steps are the critical sections of the program: submissions, callback submissions, a worker
  waking, taking a batch, screening it, answering it and releasing it, and shutdown. Clocks, cancellation and the
  wrapped backend are step inputs, so a run is any schedule with any backend behaviour. The class `Executor` performs
  the same steps on its fields.
* **Dependency graphs** (`DependencyOrder`, `DecisionGraph`, `GraphEvaluation`, `OnnxGraph`, `OptimizeLaya`,
  `OptimizeMeaning`). Validation, Kahn scheduling and evaluation of decision graphs; constant folding and sorting of
  dataflow graphs under arbitrary operator semantics.
* **Knowledge** (`KnowledgeGraph`, `KnowledgeInvariant`, `KnowledgeGuarantees`, `KnowledgeMeaning`, `Ranking`,
  `KnowledgeStore`, `Json`, `KnowledgeContext`, `ContextCompiler`). Versioned facts with supersession and snapshots,
  and the compiler that prints a JSON context under a token budget.
* **Caches** (`RevisionedCache`, `CacheGuarantees`, `LengthPrefix`, `HeadCache`). The ticket-fenced LRU cache and the
  head cache of the Laya backends, with its concurrent callers.
* **Laya layout** (`LayaLayout`, `LayaTensors`). One description of a token row and the three programs that compute it;
  tensor packing.
* **Diagnostics** (`Diagnostics`, `DiagnosticsGuarantees`). Counters, histograms, percentiles and the recent list.
* **Learning bookkeeping** (`Welford`, `Experience`, `OutcomeMemory`, `ExperienceMemory`, `ExperienceInvariant`,
  `ExperienceFrames`, `ExperiencePersistence`, `ExperienceStore`, `EntityTracks`, `Forecasts`, `AdaptiveAgent`).
  Running statistics, prequential scoring, bounded evidence, the persisted experience memory and what one frame teaches
  it, entity and forecast accounts.
* `Wrappers`, `Lists` and `Ordering` hold what several modules share.

Where the program updates an object, a class has those fields and its methods are proved to perform a step function;
the properties are then proved about that function over all runs. Where it only computes, the model is a function.

## Conventions

* Texts are sequences of characters; the texts of the program are byte strings, which are among them.
* Floating-point quantities are reals. Counters are unbounded, except where the source itself looks at the limit: the
  ticket of the cache wraps at 2^64 - 1, moments refuse a sample at the largest size, expiry saturates, and subtraction
  on unsigned sizes is shown never to go below zero.
* A precondition on a class method is its class invariant or what the source checks before the call. `ValidModel`,
  `FeedsFor` and `WeightsFixed` say what a valid ONNX graph is, that feeds are graph inputs, and the proviso of folding.
* An ordered map is visited in the order of its keys; that order is shown to exist and to be unique.
* Keys of knowledge facts are tuples in the model; `KeyReadable` shows that the joined texts determine them.
* Constructor tests that throw (`RevisionedCache`, `Diagnostics`, `ShadowMean`) are preconditions of the constructor,
  or the checking method is proved separately.

## Findings

* Folding a cast of an initializer that is also a graph input changes what the graph computes when that input is fed
  (`OverridableWeightIsBakedIn`). Under the guard `WeightsFixed` every output is preserved (`FoldKeepsOutputs`), and a
  folded value in use is preserved only under that guard (`FoldedValueIff`).
* An accepted session restore replaces stored facts without looking at evidence, so a version that stays stored can
  lose evidence rank there, and only there: exactly when the snapshot holds it with weaker evidence (`RestoreWeakens`,
  `EvidenceDropsIff`, `EvidenceFallsIff`).
* Event keys of the knowledge graph join run and event by a colon that both may contain, so of two session facts of
  different runs the second can be refused as a duplicate (`EventKeysCollide`; the keys agree exactly as `EventKeysAgree`
  says); within one run, or with run IDs free of colons, this cannot happen (`SameRunEvents`, `ColonFreeRuns`).
* A telemetry frame that throws on an invalid row list after its scan has gone beyond the column limit skips the
  eviction, and the memory's export is refused until a later frame evicts (`ThrowSkipsEviction`, `SizeAfter`). Every
  other export is refused exactly for exceeding the importer's limits (`ExportImport`).
* The head of a Laya question can exceed head_max_len + 3 tokens only when 8 + 4 * options > head_max_len
  (`HeadBound`); a margin of sixteen instead of eight is not needed.

## Model

| member | source | states |
|---|---|---|
| `BatchingSafety.ReachableInv` | src/batching.cpp:49-176 | in every reachable state of every interleaving: each live job is in exactly one place (queue or one worker's batch), accepted = queued + in_flight + completed, in_flight is the sum of the held batches, the queue is within capacity, and nothing is finished twice |
| `BatchingSafety.StepKeeps` | src/batching.cpp:59-184 | every critical section of submitters, workers and shutdown keeps that invariant, whatever the backend returns or throws and whichever rows expire |
| `BatchingSafety.AdmitKeeps` | src/batching.cpp:59-87 | an accepted or refused submission keeps the invariant |
| `BatchingSafety.AdmissionAtomic` | src/batching.cpp:63-87 | admission is all or nothing: a call that does not fit or comes after shutdown only adds its rows to rejected, otherwise its rows join the back of the queue in order under the next ids |
| `BatchingSafety.OfferedCounted` | src/batching.cpp:59-107 | over every run each row offered is counted exactly once, as accepted or as rejected |
| `BatchingSafety.CallbackIsSingleSubmit` | src/batching.cpp:89-107 | the callback path admits and rejects exactly as a batch of one request would |
| `BatchingSafety.SplitParts` | src/batching.cpp:133-142 | one dequeue partitions the queue: the batch and the rest together are the old queue without loss or duplication, the batch is of one bucket and within the size limit |
| `BatchingSafety.FinishOnce` | src/batching.cpp:25-35 | finishing a job a second time changes nothing; the first time it adds exactly one completion |
| `BatchingSafety.ScreenOnce` | src/batching.cpp:147-151 | the preflight loop finishes exactly the rows it does not pass on, each once |
| `BatchingSafety.PreflightKeeps` | src/batching.cpp:147-153 | preflight keeps the invariant, including when every row expired |
| `BatchingSafety.AnswerKeeps` | src/batching.cpp:154-170 | backend error, wrong row count, success and exception all keep the invariant |
| `BatchingSafety.TakeKeeps` | src/batching.cpp:122-144 | taking a batch, or finding the queue emptied by another worker, keeps the invariant |
| `BatchingSafety.ReleaseKeeps` | src/batching.cpp:171-173 | moving a batch from in_flight to completed keeps the invariant |
| `BatchingGuarantees.CompletedOnce` | src/batching.cpp:25-35 | in every reachable state a finished job has exactly one completion in the log, any other job has none, and an accepted job that is not finished is still queued or held |
| `BatchingGuarantees.NeverTwice` | src/batching.cpp:25-35 | over any continuation of any run the completions made so far stay as they are and no job gets a second one |
| `BatchingGuarantees.Drained` | src/batching.cpp:120-121 | once stopping is set and all workers have exited, the queue is empty, nothing is in flight, completed = accepted and every admitted job has its completion |
| `BatchingGuarantees.NoWorkerStuck` | src/batching.cpp:113-176 | a worker that has not left can always step, unless it waits while nothing is queued and admission is open |
| `BatchingGuarantees.NoDeadlock` | src/batching.cpp:113-184 | while some accepted row is not completed, or shutdown has begun and a worker has not left, some worker step is enabled, so the executor cannot deadlock |
| `BatchingGuarantees.DrainStep` | src/batching.cpp:113-184 | after shutdown every worker step strictly decreases the drain measure, and submissions cannot raise it |
| `BatchingGuarantees.DrainBounded` | src/batching.cpp:178-184 | so draining takes at most as many worker steps as the measure counts when shutdown begins |
| `BatchingGuarantees.DrainReached` | src/batching.cpp:178-184 | joining terminates: once shutdown has begun the workers' own steps lead to a state where all have left |
| `BatchingGuarantees.ShutdownCompletes` | src/batching.cpp:178-184 | shutdown at any moment of any run ends with every row accepted until then completed exactly once |
| `BatchingGuarantees.SplitPlace` | src/batching.cpp:133-142 | where each job of the queue goes: its position in the batch or its smaller position in the rest |
| `BatchingGuarantees.BucketIs` | src/batching.cpp:109-111 | jobs are in one bucket exactly when the total length of their texts falls into the same interval of the configured width; width zero is one bucket |
| `BatchingGuarantees.SameBucketFifo` | src/batching.cpp:133-142 | jobs of one bucket leave in the order they came |
| `BatchingGuarantees.DequeueAdvances` | src/batching.cpp:122-142 | every dequeue takes the front job, and any job not taken moves strictly forward |
| `BatchingGuarantees.NoStarvation` | src/batching.cpp:109-145 | a job at position p is out of the queue after any p + 1 dequeues by any workers, whatever is submitted meanwhile |
| `BatchingGuarantees.GoneForGood` | src/batching.cpp:122-144 | a job once dequeued never reappears in the queue |
| `BatchingGuarantees.BatchesCounted` | src/batching.cpp:152-154 | over every run the batches counter is the number of backend calls, those preflights that left a row |
| `BatchingGuarantees.OpenUntilShutdown` | src/batching.cpp:178-184 | an executor stops admitting exactly when shutdown has been called |
| `BatchingGuarantees.RunAligned` | src/batching.cpp:25-35 | over every run and with an arbitrary backend each successful completion carries the response the backend returned for that row, shown to it as the request the row was admitted with, and the row had not expired when it was delivered |
| `BatchingGuarantees.RunAnswers` | src/batching.cpp:25-35 | conversely over every run a row the backend answered is told that response when it had not expired, and its expiry when it had |
| `BatchingGuarantees.AnsweredOnce` | src/batching.cpp:144-170 | in one run the backend is heard at most once about a row, so an arbitrary backend amounts to one function of the job |
| `BatchingGuarantees.AnswersAreFunction` | src/batching.cpp:144-170 | that function of the job exists for every run |
| `BatchingGuarantees.PredictBatchInOrder` | src/batching.cpp:202-215 | with an arbitrary backend and any bucketing and schedule predict_batch returns in caller order what the backend returned for each row, or the failure of the first failing row, or the admission error of a refused call |
| `BatchingGuarantees.PureBatchInOrder` | src/batching.cpp:202-215 | with a backend that answers by a function of the request it returns that function of each request, in caller order |
| `BatchingGuarantees.GatherInOrder` | src/batching.cpp:202-215 | gathering replies keeps caller order and reports the first failure exactly when there is one |
| `BatchingGuarantees.AnswerDelivers` | src/batching.cpp:154-170 | each unfinished row that a backend outcome concerns gets exactly one completion: the error its expiry test gives after the call, or else its own response, the backend's error, or the mismatch or exception error |
| `BatchingGuarantees.ScreenDelivers` | src/batching.cpp:147-151 | a row that fails preflight gets exactly one completion, that failure or the one found when finishing it; any other row is passed on unfinished |
| `BatchingGuarantees.PreflightDelivers` | src/batching.cpp:147-153 | so it is for the whole preflight step, and the backend is shown exactly the rows that passed |
| `BatchingGuarantees.ScreenInOrder` | src/batching.cpp:147-151 | the rows shown to the backend keep their order |
| `BatchingGuarantees.FinishAllDelivers` | src/batching.cpp:156-168 | a finishing loop delivers to each unfinished job of the batch its own reply, or its expiry instead, once |
| `BatchingExecutor.Executor.Enqueue` | src/batching.cpp:59-87 | the method that updates the deque and counters does exactly the admission step |
| `BatchingExecutor.Executor.EnqueueCallback` | src/batching.cpp:89-107 | likewise for one request with a callback |
| `BatchingExecutor.Executor.WakeUp` | src/batching.cpp:119-121 | a worker leaving its wait exits exactly when nothing is queued, otherwise it anchors on the queue |
| `BatchingExecutor.Executor.TakeBatch` | src/batching.cpp:122-144 | after the timed wait: back to waiting when another worker emptied the queue, otherwise the batch of the front's bucket is taken |
| `BatchingExecutor.Executor.Extract` | src/batching.cpp:133-142 | the erase loop over the deque computes the stable split by bucket |
| `BatchingExecutor.Executor.FinishJob` | src/batching.cpp:25-35 | finish appends one completion for an unfinished job, the reply or, when the job has expired, that failure; for a finished job it changes nothing |
| `BatchingExecutor.Executor.PreflightBatch` | src/batching.cpp:147-151 | the preflight loop is the screening step |
| `BatchingExecutor.Executor.SettleBatch` | src/batching.cpp:154-170 | the three result branches and the exception branches are the answer step |
| `BatchingExecutor.Executor.ReleaseBatch` | src/batching.cpp:171-173 | the counter update after a batch is the release step |
| `BatchingExecutor.Executor.BeginShutdown` | src/batching.cpp:178-180 | setting the stopping flag is the shutdown step |
| `BatchingExecutor.Executor.Snapshot` | src/batching.cpp:217-222 | the statistics reported at any moment satisfy accepted = queued + in_flight + completed, within capacity and the workers' batch sizes |
| `BatchingExecutor.CollectReplies` | src/batching.cpp:202-215 | the gathering loop computes the responses in order or the first failure |
| `DependencyOrder.ScheduleRefutesCycles` | include/jevt/graph.hpp:128-132 | a graph with a schedule has no dependency cycle |
| `DependencyOrder.StuckHasCycle` | include/jevt/graph.hpp:132 | a nonempty set of nodes that all wait for one another contains an actual cycle |
| `DependencyOrder.ScheduleCovers` | include/jevt/graph.hpp:128-132 | a schedule contains every node |
| `DecisionGraph.IndexIds` | include/jevt/graph.hpp:104-111 | the ID loop accepts exactly when no ID is empty or repeated and every node has an evaluator, and names the first offender otherwise |
| `DecisionGraph.ResolveNode` | include/jevt/graph.hpp:115-127 | dependency resolution of one node succeeds exactly when every name is known and unrepeated, and then gives their indices |
| `DecisionGraph.Invert` | include/jevt/graph.hpp:113-127 | consumers lists each dependent once under each of its dependencies, and nothing else |
| `DecisionGraph.Kahn` | include/jevt/graph.hpp:128-132 | the Kahn loop lists all nodes only as a schedule; otherwise some cycle lies entirely among the nodes it did not list |
| `DecisionGraph.ReleaseConsumers` | include/jevt/graph.hpp:129-131 | the inner loop keeps each counter equal to the number of unfinished dependencies and lists a node exactly when it reaches zero |
| `DecisionGraph.Construct` | include/jevt/graph.hpp:103-133 | construction succeeds exactly for a resolvable graph without cycles, and order_ is then a schedule; a cyclic graph is refused with a cycle as witness |
| `DecisionGraph.RefusedOnlyWhenFaulty` | include/jevt/graph.hpp:103-133 | a graph with correct IDs, resolvable dependencies and no cycle is never refused |
| `DecisionGraph.ResolvableIff` | include/jevt/graph.hpp:104-127 | apart from cycles the constructor asks exactly for nonempty, different ids, evaluators, and dependencies that name nodes, none twice |
| `GraphEvaluation.Evaluate` | include/jevt/graph.hpp:135-197 | the sweep with trace_indices solves the graph's equations (each trace computed from its dependencies' traces) and lists traces and edges in schedule order |
| `GraphEvaluation.CollectDependencies` | include/jevt/graph.hpp:144-149 | trace_indices finds exactly the traces of a node's predecessors, in declaration order |
| `GraphEvaluation.ScheduleIrrelevant` | include/jevt/graph.hpp:135-197 | two schedules of one graph give every node the same trace |
| `GraphEvaluation.SameAt` | include/jevt/graph.hpp:135-197 | evaluations that agree on a node and all it transitively depends on, in callbacks and deadline answers, give it the same trace |
| `GraphEvaluation.FailureIsolation` | include/jevt/graph.hpp:159-176 | replacing what nodes do, or when their deadlines pass, can change only those nodes and their descendants |
| `GraphEvaluation.Provenance` | include/jevt/graph.hpp:181-186 | every succeeded trace carries the evaluation's snapshot ID |
| `GraphEvaluation.SuccessIff` | include/jevt/graph.hpp:155-186 | a node succeeds exactly when it is not expired before or after, not blocked, its condition holds, its callback succeeds and its output names no other snapshot |
| `GraphEvaluation.CaseTable` | include/jevt/graph.hpp:150-186 | the complete table of what a node's trace is, by its inputs: expired, blocked by the first dependency that did not succeed, condition false, condition or callback thrown, success too late or on another snapshot, any other result passed on; with status, message, output and snapshot of each |
| `GraphEvaluation.BlockedNode` | include/jevt/graph.hpp:158-167 | a node that insists on its dependencies is stale or skipped after the first that did not succeed |
| `GraphEvaluation.AncestorsSucceeded` | include/jevt/graph.hpp:158-167 | if every node insists on its dependencies, all transitive ancestors of a succeeded node succeeded on the same snapshot |
| `OnnxGraph.ExecuteSolves` | scripts/optimize_laya.py:62-79 | running an ordered single-assignment graph satisfies every node's equation |
| `OnnxGraph.ExecuteWithin` | scripts/optimize_laya.py:32-59 | any solution of the equations of an ordered graph contains what running it computes |
| `OptimizeLaya.OnnxFile.MaterializeFp32Weights` | scripts/optimize_laya.py:32-59 | the in-place folding, removal and dropping loops leave exactly the folded model |
| `OptimizeLaya.OnnxFile.FoldCasts` | scripts/optimize_laya.py:41-50 | the first loop appends the converted initializers of exactly the recognised casts |
| `OptimizeLaya.OnnxFile.RemoveFolded` | scripts/optimize_laya.py:51-52 | removing by first equal node leaves exactly the nodes that were not folded, in order |
| `OptimizeLaya.OnnxFile.DropUnused` | scripts/optimize_laya.py:53-58 | an initializer stays exactly when a remaining node, an output or an input names it |
| `OptimizeLaya.OnnxFile.TopologicalSort` | scripts/optimize_laya.py:62-79 | the multi-pass sort terminates with an ordered rearrangement of the nodes, or raises exactly when no rearrangement is ordered |
| `OptimizeLaya.PassOrdered` | scripts/optimize_laya.py:68-74 | one pass appends only nodes whose inputs are ready |
| `OptimizeLaya.PassRearranges` | scripts/optimize_laya.py:68-74 | one pass neither loses nor invents a node |
| `OptimizeLaya.StuckHasNoOrder` | scripts/optimize_laya.py:75-76 | when a pass places nothing, no order of the pending nodes exists at all |
| `OptimizeMeaning.SortKeepsMeaning` | scripts/optimize_laya.py:62-79 | any ordered rearrangement of the nodes of a valid graph computes the same environment for all feeds and all operator semantics |
| `OptimizeMeaning.RearrangedDefinedOnce` | scripts/optimize_laya.py:62-79 | single assignment does not depend on the order of the nodes |
| `OptimizeMeaning.SortModel` | scripts/optimize_laya.py:62-79 | what topological_sort leaves solves every node's equation, and whenever the nodes have an ordered arrangement it succeeds and computes what that arrangement computes |
| `OptimizeMeaning.FoldKeepsOutputs` | scripts/optimize_laya.py:32-59 | folding casts of initializers and dropping unused ones leaves every graph output as it was, for all feeds and operator semantics, provided no folded weight is also a graph input |
| `OptimizeMeaning.FoldedOrdered` | scripts/optimize_laya.py:51-58 | the folded graph is again single-assignment and dependency-ordered |
| `OptimizeMeaning.OutputStillDefined` | scripts/optimize_laya.py:53-58 | a graph output that had a value still has one |
| `OptimizeMeaning.RemovedAre` | scripts/optimize_laya.py:41-52 | folding removes exactly the Cast nodes of one input and one output whose input names an initializer and whose target type is FLOAT |
| `OptimizeMeaning.FoldedValueIff` | scripts/optimize_laya.py:41-50 | the proviso is exact: a folded value still in use is the original one for all feeds if and only if its weight is not a graph input |
| `OptimizeMeaning.OriginalValue` | scripts/optimize_laya.py:43-49 | what a recognised cast computes before folding: the conversion of the feed, or else of the initializer |
| `OptimizeMeaning.OverridableWeightIsBakedIn` | scripts/optimize_laya.py:41-50 | why the proviso is needed: a cast of an initializer that is also a graph input is folded to the default, and feeding that input then changes the original output but not the folded one |
| `KnowledgeInvariant.KeyReadable` | include/jevt/knowledge.hpp:294-303 | for validated facts the separator-joined keys determine every field they join, so equal key texts mean equal key tuples |
| `KnowledgeMeaning.EventKeysCollide` | include/jevt/knowledge.hpp:149-151 | two session facts of different events in different runs, each acceptable to a new graph, of which the second is refused as a duplicate |
| `KnowledgeMeaning.DuplicateRefused` | include/jevt/knowledge.hpp:149-151 | a session fact that passes the other checks is refused as a duplicate exactly when its event key is in the window, so after an accepted fact always when the event keys agree |
| `KnowledgeMeaning.WindowExact` | include/jevt/knowledge.hpp:149-156 | over every run the duplicate window is exactly the newest event keys accepted since the run began or the graph was cleared, as many as the limit allows, in order |
| `KnowledgeMeaning.DuplicateIff` | include/jevt/knowledge.hpp:134-156 | so a fact that passes every other check is refused as a duplicate exactly when its event key is among those, and accepted otherwise |
| `KnowledgeInvariant.EventKeysAgree` | include/jevt/knowledge.hpp:149-151 | exactly when event keys of different observations agree |
| `KnowledgeInvariant.ColonFreeRuns` | include/jevt/knowledge.hpp:149-151 | with run IDs that contain no colon event keys identify run and event |
| `KnowledgeInvariant.SameRunEvents` | include/jevt/knowledge.hpp:149-151 | within one run distinct event IDs never collide |
| `KnowledgeInvariant.Reachable` | include/jevt/knowledge.hpp:84-282 | in every reachable state keys are distinct, superseded keys are stored, sizes are within limits, at most one version of a proposition is current and it has the greatest tick, non-session facts belong to the current run, the event window is exact |
| `KnowledgeInvariant.ApplyKeeps` | include/jevt/knowledge.hpp:84-282 | every operation keeps that invariant |
| `KnowledgeInvariant.StoreTable` | include/jevt/knowledge.hpp:158-195 | storing keeps the version table and the size limit; every stored fact is an old one, the new one or a refreshed one |
| `KnowledgeInvariant.TableAppend` | include/jevt/knowledge.hpp:158-167 | a new version is current and every other version of its proposition is marked |
| `KnowledgeInvariant.TableRefresh` | include/jevt/knowledge.hpp:168-184 | re-observing a stored version makes it the only current one |
| `KnowledgeInvariant.EvictedConflicts` | include/jevt/knowledge.hpp:185-192 | marking before evicting and evicting before marking leave the same marks |
| `KnowledgeInvariant.BeginRunKeeps` | include/jevt/knowledge.hpp:84-104 | a run change keeps the invariant for the new run |
| `KnowledgeInvariant.RestoreKeeps` | include/jevt/knowledge.hpp:251-277 | a restore that is accepted keeps the invariant |
| `KnowledgeInvariant.RejectionNames` | include/jevt/knowledge.hpp:134-151 | a fact is accepted exactly when it is valid and of the current run or the session, an observation has a valid expiry, no stored version of its proposition is newer and its event is not in the window |
| `KnowledgeMeaning.ValidIff` | include/jevt/knowledge.hpp:304-320 | which facts are valid: seven nonempty texts within the length limit and free of the separator, bounded attributes and priority, and a run unless of the session |
| `KnowledgeMeaning.RefreshedIs` | include/jevt/knowledge.hpp:170-184 | what a re-observation leaves of a stored version, field by field; provenance follows unless the new evidence is weaker |
| `KnowledgeMeaning.OthersStay` | include/jevt/knowledge.hpp:157-196 | an ingest leaves facts about other propositions as current as they were |
| `KnowledgeMeaning.DisplacesOne` | include/jevt/knowledge.hpp:186-193 | a new version stored into a full graph displaces exactly one fact, the first outside the session or else the first of all |
| `KnowledgeMeaning.RunChange` | include/jevt/knowledge.hpp:84-104 | a run change keeps exactly the session facts to be retained, as current as they were, empties the window, and counts a generation when something was dropped |
| `KnowledgeMeaning.RestoredIs` | include/jevt/knowledge.hpp:251-277 | exactly which snapshots are accepted, and what is then stored and current |
| `KnowledgeMeaning.Attested` | include/jevt/knowledge.hpp:106-131 | each entry point stores the evidence its name attests, the general one hypotheses only |
| `KnowledgeGuarantees.SnapshotRoundTrip` | include/jevt/knowledge.hpp:243-277 | in a state with a run started, restoring the graph's own session snapshot is never refused and saving it again gives the same sequence |
| `KnowledgeGuarantees.ReachableRoundTrip` | include/jevt/knowledge.hpp:243-277 | so it is after any sequence of operations |
| `KnowledgeGuarantees.EvidenceNeverDrops` | include/jevt/knowledge.hpp:84-277 | over any run of ingests, run changes, restores and clears the evidence rank of a version never drops while it stays stored, unless an accepted restore on the way holds that version with weaker evidence than was stored |
| `KnowledgeGuarantees.EvidenceDropsIff` | include/jevt/knowledge.hpp:84-277 | across one operation the rank of a stored version drops exactly when the operation is such a restore |
| `KnowledgeGuarantees.EvidenceFallsIff` | include/jevt/knowledge.hpp:84-277 | so the proviso over runs is exact |
| `KnowledgeGuarantees.RestoreWeakens` | include/jevt/knowledge.hpp:251-277 | such a run for every session fact: a verified outcome restored from a snapshot as a hypothesis |
| `KnowledgeGuarantees.HypothesesStay` | include/jevt/knowledge.hpp:106-117 | without an attested entry point or an attested snapshot nothing but hypotheses is ever stored |
| `KnowledgeGuarantees.AcceptedIsCurrent` | include/jevt/knowledge.hpp:158-195 | an accepted fact is stored and current afterwards |
| `KnowledgeGuarantees.ReturningValue` | include/jevt/knowledge.hpp:158-184 | A, then B, then A again leaves A current and B superseded |
| `KnowledgeGuarantees.OnlyTheNewest` | include/jevt/knowledge.hpp:142-148 | after an ingest the version ingested is the only current one of its proposition and no stored version has a greater tick |
| `Ranking.StableSortUnique` | include/jevt/knowledge.hpp:216-219 | the ranking is the only stable sort by priority and tick, so it does not matter how the library sorts |
| `Ranking.StableSortCorrect` | include/jevt/knowledge.hpp:216-219 | the ranking rearranges the candidates, orders them and keeps equals in place |
| `Ranking.TiesKeepOrder` | include/jevt/knowledge.hpp:216-219 | facts of equal priority and tick keep their stored order |
| `KnowledgeStore.QueryMeaning` | include/jevt/knowledge.hpp:200-225 | a query returns current, unexpired, matching facts, one version a proposition, higher priorities first and of equal priorities later ticks first; every matching fact left out by the limit is not above any returned one |
| `KnowledgeStore.Graph.StartRun` | include/jevt/knowledge.hpp:84-104 | the compacting loop leaves exactly the retained session facts and counts a generation exactly when something went |
| `KnowledgeStore.Graph.IngestFact` | include/jevt/knowledge.hpp:106-196 | each entry point with its in-place updates is the ingest step, with reason and generation |
| `KnowledgeStore.Graph.CheckRecord` | include/jevt/knowledge.hpp:135-151 | the checks in order give the step's rejection reason |
| `KnowledgeStore.Graph.StoreFact` | include/jevt/knowledge.hpp:158-195 | marking, refreshing, evicting and appending in place is the store step |
| `KnowledgeStore.Graph.RememberEvent` | include/jevt/knowledge.hpp:149-156 | the duplicate window after an event, trimmed to its limit |
| `KnowledgeStore.Graph.Query` | include/jevt/knowledge.hpp:200-225 | the candidate loop and sort return the query result |
| `KnowledgeStore.Graph.ClearAll` | include/jevt/knowledge.hpp:279-282 | clearing forgets everything, including the run, and counts a generation |
| `KnowledgeStore.Graph.Snapshot` | include/jevt/knowledge.hpp:243-249 | the loop collects the current session facts in order |
| `KnowledgeStore.Graph.RestoreSnapshot` | include/jevt/knowledge.hpp:251-277 | refuses for the first failing check and otherwise replaces exactly the session facts |
| `Json.RoundTrip` | include/jevt/knowledge.hpp:397-436 | every printed JSON value reads back as itself under a reader for section 7 of RFC 8259 strings, arrays and objects |
| `Json.BodyRoundTrip` | include/jevt/knowledge.hpp:397-416 | an escaped text reads back as the text, whatever bytes it holds |
| `KnowledgeContext.InputPrinted` | include/jevt/knowledge.hpp:417-436 | the concatenated input text is the printed form of one JSON value |
| `KnowledgeContext.MakeInput` | include/jevt/knowledge.hpp:417-436 | the printing loop produces that text |
| `KnowledgeContext.ContextReadable` | include/jevt/knowledge.hpp:397-436 | reading the compiled input recovers exactly schema, observation and the semantic fields of the admitted facts, for all texts |
| `KnowledgeContext.ContextInjective` | include/jevt/knowledge.hpp:397-436 | requests with different schema, observation or admitted semantics never share an input |
| `ContextCompiler.Compile` | include/jevt/knowledge.hpp:381-396 | refuses exactly incomplete contracts, observations over one mebibyte, and prompts that exceed the budget without facts, in that order; otherwise compiles the greedy choice |
| `ContextCompiler.AdmitFacts` | include/jevt/knowledge.hpp:455-468 | the push-and-pop loop admits greedily: each fact exactly when it fits beside those admitted before it |
| `ContextCompiler.AdmittedAndOmittedPartition` | include/jevt/knowledge.hpp:437-471 | admitted and omitted together are the request's facts, each list by priority and then tick |
| `ContextCompiler.CompiledMeaning` | include/jevt/knowledge.hpp:437-471 | the token count is the caller's count of question, newline and returned input, within budget; each fact in rank order is admitted exactly when the prompt with it after those admitted before counts within budget |
| `ContextCompiler.GreedyUnique` | include/jevt/knowledge.hpp:455-468 | the greedy decision is unique |
| `ContextCompiler.OmittedWouldOverflow` | include/jevt/knowledge.hpp:459-464 | an omitted fact exceeds the budget beside those admitted before it, and with a monotone tokenizer beside all admitted |
| `ContextCompiler.CompiledReadable` | include/jevt/knowledge.hpp:397-471 | what the model is sent reads back to the observation and exactly the admitted facts, each field by field with its evidence named |
| `RevisionedCache.Cache.AdvanceTo` | include/jevt/cache.hpp:58-68 | the ticket issued and the whole new state: cleared with a new generation exactly when the revisions change |
| `RevisionedCache.Cache.Lookup` | include/jevt/cache.hpp:70-90 | value found and whole new state: stale, missing, expired and hit branches |
| `RevisionedCache.Cache.Store` | include/jevt/cache.hpp:92-125 | acceptance and whole new state: refusals, fencing, replacement, eviction loop and insertion |
| `RevisionedCache.Cache.EvictFor` | include/jevt/cache.hpp:102-109 | the eviction loop, including its branch for a listed key without an entry |
| `RevisionedCache.Cache.InvalidateAll` | include/jevt/cache.hpp:127-133 | everything is dropped and the generation moves on |
| `CacheGuarantees.RunKeeps` | include/jevt/cache.hpp:58-163 | in every reachable state list and map hold the same distinct keys, retained_bytes is their exact sum, and both limits hold, so the unsigned subtraction cannot wrap |
| `CacheGuarantees.StepKeeps` | include/jevt/cache.hpp:58-163 | every operation keeps that invariant |
| `CacheGuarantees.MakeRoomKeepsNewest` | include/jevt/cache.hpp:102-109 | eviction keeps the longest prefix of the recency list that leaves room, changes no entry it keeps and counts those it drops |
| `CacheGuarantees.WithinMap` | include/jevt/cache.hpp:58-125 | whatever the cache holds is what an unbounded map of the writes of the current generation would hold |
| `CacheGuarantees.HitIsLastWrite` | include/jevt/cache.hpp:70-90 | a hit returns the value of the last accepted write of that key in the current generation, before it expires; an entry found expired is dropped |
| `CacheGuarantees.WriteThenRead` | include/jevt/cache.hpp:92-125 | an accepted write is found by the next read exactly until its expiry, which saturates |
| `CacheGuarantees.AcceptedIff` | include/jevt/cache.hpp:91-102 | when a put is accepted: nonempty key, a value, positive lifetime, a size within the byte limit, and the current ticket |
| `CacheGuarantees.NewCache` | include/jevt/cache.hpp:53-56 | a new cache is empty, has counted nothing and treats every ticket as stale |
| `CacheGuarantees.AdvanceIs` | include/jevt/cache.hpp:58-69 | announcing the revisions in force changes nothing, announcing others starts an empty generation under the next ticket |
| `CacheGuarantees.InvalidateIs` | include/jevt/cache.hpp:127-133 | after an invalidation nothing is stored and every ticket is stale until revisions are announced |
| `CacheGuarantees.RecencyOrder` | include/jevt/cache.hpp:87-111 | over every run the list is exactly in order of last use |
| `CacheGuarantees.EvictsLeastRecent` | include/jevt/cache.hpp:102-109 | an accepted write evicts exactly the least recently used entries and no more than it must |
| `CacheGuarantees.GenerationIsTicket` | include/jevt/cache.hpp:156-158 | the generation is the ticket of the number of generation changes so far |
| `CacheGuarantees.TicketAlias` | include/jevt/cache.hpp:156-158 | two generations share a ticket exactly when a multiple of 2^64 - 1 changes lies between them |
| `CacheGuarantees.TicketFence` | include/jevt/cache.hpp:73-76 | a ticket is current later exactly when no change of generation, or a whole number of counter wraps, has happened since |
| `CacheGuarantees.StaleOnlyCounts` | include/jevt/cache.hpp:73-101 | a read or write with another ticket changes nothing but a counter |
| `CacheGuarantees.CountersAccount` | include/jevt/cache.hpp:70-125 | every read is one hit, miss or stale read, and entries present plus evictions never exceed writes |
| `CacheGuarantees.CountersExact` | include/jevt/cache.hpp:58-133 | over every run hits, misses, stale reads, writes, stale writes and revision invalidations each count exactly their outcomes |
| `LengthPrefix.EncodingRoundTrip` | src/laya.cpp:234-240 | length-prefixed components decode back to themselves, even when they contain digits and colons |
| `LengthPrefix.HeadKeyInjective` | src/laya.cpp:234-240 | two questions share a head-cache key exactly when kind, question and options are the same |
| `LengthPrefix.BuildHeadKey` | src/laya.cpp:235-240 | the appending loop builds that key |
| `LengthPrefix.ContextKeyIdentifies` | include/jevt/experience.hpp:18-24 | context keys are equal exactly for equal feature maps |
| `LengthPrefix.VisitExists` | include/jevt/experience.hpp:18-24 | every feature map is visited in some order, and so it has a context key |
| `LengthPrefix.BuildContextKey` | include/jevt/experience.hpp:18-24 | the loop over the map builds the context key |
| `HeadCache.Transparent` | src/laya.cpp:231-306 | whatever callers look up and insert concurrently, every answer is what preparing that question afresh gives, and the limits hold throughout |
| `HeadCache.StepSound` | src/laya.cpp:241-304 | each critical section keeps map, queue and byte count in step, the limits, and the truth of every cached head |
| `HeadCache.LookUpIs` | src/laya.cpp:243-251 | a head is answered from the cache exactly when caching is on, the key within the byte limit and the head stored |
| `HeadCache.PutBackIs` | src/laya.cpp:285-306 | a prepared head is stored exactly when caching is on, key and head are within the byte limit and nobody stored it meanwhile; it is then the newest |
| `HeadCache.InsertKeeps` | src/laya.cpp:286-304 | an insertion keeps the invariant and forgets only the oldest heads, no more than it must |
| `HeadCache.HeadStore.Lookup` | src/laya.cpp:241-249 | returns the cached head exactly when cacheable and present, counting one hit or one miss |
| `HeadCache.HeadStore.Remember` | src/laya.cpp:286-304 | the guarded insertion with its eviction loop, in place |
| `HeadCache.NativeNeedsNoSecondLook` | src/laya_native.cpp:125-176 | under one lock the insertion without a second look is the same |
| `HeadCache.SecondLookNeeded` | src/laya.cpp:292 | with two simultaneous misses the second look is what keeps the invariant: without it map and queue part |
| `LayaLayout.PrepareHead` | src/laya.cpp:253-285 | the unsigned, guarded computation of head and markers gives the described head |
| `LayaLayout.CppRow` | src/laya.cpp:308-323 | the finished row, or a refusal exactly when some marker would fall outside it |
| `LayaLayout.NativeHead` | src/laya_native.cpp:130-160 | the native computation gives the same head, or throws exactly when the last marker is beyond the limit |
| `LayaLayout.NativeRow` | src/laya_native.cpp:221-233 | the native row equals the row of src/laya.cpp for every context limit |
| `LayaLayout.FixtureRow` | benchmarks/laya_latency.py:51-65 | the signed computation with floor division and clamping slices gives the same ids and all markers |
| `LayaLayout.FixtureAgrees` | benchmarks/laya_latency.py:47-66 | without a context limit the fixture builds the rows of both backends; for a question they refuse it reports a marker outside its own row |
| `LayaLayout.MarkersPoint` | src/laya.cpp:275-285 | markers rise strictly, lie inside the head and point at mask tokens |
| `LayaLayout.OptionBehindMarker` | src/laya.cpp:279-284 | each option lies whole and contiguous behind its marker |
| `LayaLayout.LayoutSound` | src/laya.cpp:308-323 | an accepted row is within max_len with one rising in-range marker an option, each at a mask token |
| `LayaLayout.RowShape` | src/laya.cpp:308-323 | an accepted row is its head, as much of the context as sequence and context limits leave room for, and the separator; a context that fits is in the row whole |
| `LayaLayout.RowOfLongHead` | src/laya.cpp:308-323 | a head as long as the sequence is cut and leaves room for nothing else |
| `LayaLayout.HeadShape` | src/laya.cpp:253-283 | what a head consists of: options of a mask and up to 48 tokens, cut to an equal share of at least four when they crowd the head, and the heading cut to what they leave, at least eight |
| `LayaLayout.LastDecides` | src/laya_native.cpp:159-160 | testing the last marker is testing all of them |
| `LayaLayout.MarkersInside` | src/laya.cpp:319-322 | the erase loop keeps every marker exactly when the question is accepted |
| `LayaLayout.HeadBound` | src/laya.cpp:262-273 | for every content the head is within head_max_len + 3 tokens exactly when 8 + 4 * options <= head_max_len |
| `LayaLayout.NeverRefused` | src/laya.cpp:407-408 | then, with two more tokens of sequence, no content is ever refused |
| `LayaTensors.Pack` | src/laya.cpp:429-443 | filling and copying in place gives the padded row-major tensor |
| `LayaTensors.PackMask` | src/laya.cpp:432-445 | the marker mask is right whatever size and content the pooled buffer had |
| `LayaTensors.Dimensions` | src/laya.cpp:414-415 | the running maxima are the widest row and marker list, at least 8 and 2 |
| `LayaTensors.DimensionTest` | src/laya.cpp:419-421 | the division test passes exactly when both tensor sizes fit the limit |
| `LayaTensors.FlatAt` | src/laya.cpp:438-447 | reading at row * width + column gives the row's own element or the fill |
| `LayaTensors.TokenCell` | src/laya.cpp:438-441 | a token cell holds the row's token under attention, or padding without |
| `LayaTensors.MarkerCell` | src/laya.cpp:442-445 | a marker cell is masked in exactly when it holds one of the row's markers |
| `LayaTensors.PackNativeMarkers` | src/laya_native.cpp:260-262 | the native loop fills the flat marker tensor |
| `LayaTensors.NativeMarkersPoint` | src/laya_native.cpp:253-263 | every active flat marker points at a mask token of its own row of the flat token tensor |
| `LayaTensors.Predict` | src/laya_native.cpp:192-279 | rows with a single option are answered without the model; an output of the wrong size or with a non-finite active score is refused; otherwise each other request is scored from its own slice of the flat output |
| `LayaTensors.RowsToRun` | src/laya_native.cpp:195-243 | the loop over the requests builds the batch of those that are run and its width |
| `LayaTensors.WidthIs` | src/laya_native.cpp:194-236 | the width is the greatest option count of the rows, at least two |
| `LayaTensors.ScoreRows` | src/laya_native.cpp:269-277 | the loop over the rows checks and scores every active slice, and refuses exactly an unusable output |
| `LayaTensors.ScoresReturnInOrder` | src/laya_native.cpp:206-279 | so with a model that scores rows independently every request gets its own score, in caller order |
| `Diagnostics.CheckBounds` | src/diagnostics.cpp:135-143 | bounds are accepted exactly when not empty, positive and strictly increasing |
| `Diagnostics.Bucket` | src/diagnostics.cpp:180-181 | the bucket of a latency: all bounds before it are smaller, its own bound is not |
| `Diagnostics.Recorder.RecordCall` | src/diagnostics.cpp:171-224 | after every call all counters, histograms, the per-decision table, the dropped count and the recent list are those of the calls recorded |
| `Diagnostics.Recorder.CountDecision` | src/diagnostics.cpp:197-207 | known, new and dropped decisions |
| `Diagnostics.Recorder.Note` | src/diagnostics.cpp:209-223 | sampling and trimming of the recent list |
| `Diagnostics.Recorder.Reset` | src/diagnostics.cpp:300-308 | everything is as before the first call |
| `Diagnostics.UpdateIsSummary` | src/diagnostics.cpp:184-194 | adding one call to the counters keeps them the summary of all calls |
| `Diagnostics.SeenIsTracked` | src/diagnostics.cpp:197-206 | while there is room every decision seen has counters of its own, so none of its calls is missing from them |
| `DiagnosticsGuarantees.Conservation` | src/diagnostics.cpp:184-207 | calls = outcomes = sum of buckets = calls attributed to tracked decisions + dropped calls, and each decision's counters count exactly its calls |
| `DiagnosticsGuarantees.PercentileBucket` | src/diagnostics.cpp:72-89 | a reported percentile is the upper edge of exactly the bucket that holds the ceil(q * calls)-th smallest latency |
| `DiagnosticsGuarantees.PercentileBrackets` | src/diagnostics.cpp:72-89 | so it is never below that latency, and outside the first bucket the bound below is strictly less than it |
| `DiagnosticsGuarantees.Selected` | src/diagnostics.cpp:75-76 | every rank from 1 to calls has its order statistic |
| `DiagnosticsGuarantees.PercentileMonotone` | src/diagnostics.cpp:72-89 | a larger quantile never reports less |
| `DiagnosticsGuarantees.ReportedQuantilesOrdered` | src/diagnostics.cpp:104-106 | p50 <= p95 <= p99 |
| `DiagnosticsGuarantees.ReportPercentile` | src/diagnostics.cpp:72-89 | the cumulative loop computes the percentile |
| `DiagnosticsGuarantees.Cumulative` | src/diagnostics.cpp:269-279 | the exported loop computes running sums |
| `DiagnosticsGuarantees.CumulativeMeaning` | src/diagnostics.cpp:269-279 | each exported bucket counts the calls no slower than its bound, the last one all calls |
| `DiagnosticsGuarantees.SampledNumbers` | src/diagnostics.cpp:209-219 | sampled calls are numbered 1, 1 + N, 1 + 2N, ... newest first without a gap |
| `DiagnosticsGuarantees.SampledAreCalls` | src/diagnostics.cpp:212-219 | each entry is the call of its number |
| `DiagnosticsGuarantees.RecentIsNewest` | src/diagnostics.cpp:219-222 | the recent list is the newest of them, as many as it may hold |
| `Welford.UpdateExact` | include/jevt/experience.hpp:29-38 | the running update keeps mean and m2 equal to the mean and the sum of squared deviations of all samples |
| `Welford.MeanBetween` | examples/mario_dashboard/experience_memory.hpp:26-34 | a mean lies between bounds of its samples |
| `Experience.Moments.Observe` | include/jevt/experience.hpp:29-38 | refuses only at the counter limit, otherwise stays exact |
| `Experience.ShadowMean.Observe` | include/jevt/experience.hpp:59-70 | the check is made from the estimate before the sample, then the sample is learned; the window holds the newest 32 checks |
| `Experience.ShadowMean.Promoted` | include/jevt/experience.hpp:74-87 | the loops decide promotion by window size, wins and both mean errors |
| `Experience.ShadowMean.ValueOr` | include/jevt/experience.hpp:88 | the candidate when promoted, otherwise the prior |
| `Experience.CheckIsPrequential` | include/jevt/experience.hpp:63-66 | each check depends only on its sample and the mean of strictly earlier samples |
| `Experience.WindowIsNewest` | include/jevt/experience.hpp:52-70 | the window is exactly the last 32 checks, from the fifth sample on, each the error of the prior and of the bounded mean of strictly earlier samples |
| `Experience.PromotedIff` | include/jevt/experience.hpp:82-87 | promotion takes 32 checks, 24 of them won, and a mean error more than a tenth below that of the prior |
| `Experience.ClampIs` | include/jevt/experience.hpp:73 | a bounded estimate is the bound it exceeds, or the estimate |
| `Experience.PromotionIsEarned` | include/jevt/experience.hpp:82-88 | a promoted estimator has seen 36 samples and was strictly better on average; its answer respects the bounds |
| `OutcomeMemory.Memory.Record` | include/jevt/experience.hpp:106-125 | an attempt is accepted exactly when it is none of the newest 4 * capacity accepted ones; records, order and window follow |
| `OutcomeMemory.TallyCounts` | include/jevt/experience.hpp:120-123 | evidence counts the attempts behind it by result and failure class |
| `OutcomeMemory.SinceIsRecent` | include/jevt/experience.hpp:114-119 | the attempts behind a remembered context are all of its attempts from the one that last brought it into the memory: absent just before it, present ever since, and no other point is so |
| `OutcomeMemory.CountedOnce` | include/jevt/experience.hpp:108-113 | inside the window one attempt is one label, even under different contexts |
| `ExperienceInvariant.AddKeeps` | examples/mario_dashboard/experience_memory.hpp:26-34 | adding a sample keeps min <= mean <= max and m2 >= 0, for samples of any sign and for imported statistics |
| `ExperienceInvariant.StatsExact` | examples/mario_dashboard/experience_memory.hpp:26-34 | statistics of a list of samples are its count, mean, squared deviations, least and greatest sample |
| `ExperienceInvariant.ObserveKeeps` | examples/mario_dashboard/experience_memory.hpp:116-281 | every frame keeps the memory consistent: measured flights = completed - bounced, outcomes within frames, changes within observations, canonical rows, bounded enemy types, even when a row list throws half way |
| `ExperienceInvariant.FlownKeeps` | examples/mario_dashboard/experience_memory.hpp:234-265 | a completed flight is counted once and measured exactly when it did not bounce |
| `ExperienceInvariant.EventCountsOnce` | examples/mario_dashboard/experience_memory.hpp:266-274 | a session event observed again is not counted again |
| `ExperienceInvariant.OutcomeCounted` | examples/mario_dashboard/experience_memory.hpp:153-272 | when a frame is counted as a success or a failure: by the session's word when it has a lifecycle, otherwise by either's, and not again for the event or episode counted last |
| `ExperienceInvariant.RowsOnce` | examples/mario_dashboard/experience_memory.hpp:422-431 | sorting and deduplicating rows is idempotent and gives a list the importer takes |
| `ExperienceFrames.EpisodeStarts` | examples/mario_dashboard/experience_memory.hpp:104-132 | which frames start an episode, and what that forgets |
| `ExperienceFrames.OldFrame` | examples/mario_dashboard/experience_memory.hpp:134 | a frame number not above the last one teaches nothing |
| `ExperienceFrames.UnknownLevel` | examples/mario_dashboard/experience_memory.hpp:139-149 | a frame without a known level teaches nothing and breaks the trajectory |
| `ExperienceFrames.LearnedFrame` | examples/mario_dashboard/experience_memory.hpp:150-172 | any other frame is counted and becomes the last one |
| `ExperienceFrames.RowsAre` | examples/mario_dashboard/experience_memory.hpp:422-432 | the rows kept of a list are the screen rows it names, once each and rising; anything else makes the list invalid |
| `ExperienceFrames.ColumnSeen` | examples/mario_dashboard/experience_memory.hpp:179-198 | what one candidate does to the stored columns: skipped outside the visible window or off the grid, stopped by an invalid list, otherwise the column of its place and no other |
| `ExperienceFrames.WhenScanned` | examples/mario_dashboard/experience_memory.hpp:173 | columns are scanned exactly with collision data and a living player |
| `ExperienceFrames.KeptColumns` | examples/mario_dashboard/experience_memory.hpp:200-205 | after a full scan at most 512 columns stay, and those seen least recently go |
| `ExperienceFrames.EnemyMet` | examples/mario_dashboard/experience_memory.hpp:208-231 | what one enemy sighting does: bounded kinds and slots, at most 64 kinds, and a velocity sample only from a close sighting of the same kind in the same slot |
| `ExperienceFrames.FlightTracked` | examples/mario_dashboard/experience_memory.hpp:234-250 | over any run of airborne frames the jump records where and when the ground was left, the frames held and the greatest rise |
| `ExperienceFrames.FlightMeasured` | examples/mario_dashboard/experience_memory.hpp:251-262 | landing completes the flight once and measures, unless it bounced, duration, distance, rise and hold from the last frame on the ground |
| `ExperienceFrames.Bounces` | examples/mario_dashboard/experience_memory.hpp:241-243 | a flight bounces when after a fall of more than a pixel it rises by more than a pixel in one frame |
| `ExperienceFrames.FlightLost` | examples/mario_dashboard/experience_memory.hpp:238 | a gap of more than four frames abandons a flight unmeasured |
| `ExperienceFrames.FlightCut` | examples/mario_dashboard/experience_memory.hpp:233-273 | a death or clear ends a flight unmeasured |
| `ExperienceFrames.FrameParts` | examples/mario_dashboard/experience_memory.hpp:206-280 | a whole frame does to columns, enemies, flights and tracking what its parts say |
| `ExperiencePersistence.ExportImport` | examples/mario_dashboard/experience_memory.hpp:332-416 | a memory's own document is accepted exactly when the memory is within the importer's size, coordinate, name and count limits, and loads the same evidence; no consistency check can fail |
| `ExperiencePersistence.RoundTrip` | examples/mario_dashboard/experience_memory.hpp:332-416 | re-exporting what was loaded gives the same document, columns marked imported |
| `ExperiencePersistence.ReachableRoundTrip` | examples/mario_dashboard/experience_memory.hpp:103-416 | so it is after every run of frames, episode resets and imports |
| `ExperiencePersistence.ImportKeeps` | examples/mario_dashboard/experience_memory.hpp:347-416 | any accepted document leaves a consistent memory within the limits |
| `ExperiencePersistence.ImportAccepts` | examples/mario_dashboard/experience_memory.hpp:347-416 | exactly which documents the importer accepts, condition by condition |
| `ExperiencePersistence.ExportUnique` | examples/mario_dashboard/experience_memory.hpp:332-337 | map order and column keys determine one export |
| `ExperiencePersistence.PlaceTextInjective` | examples/mario_dashboard/experience_memory.hpp:419-421 | different places have different column keys |
| `ExperiencePersistence.ThrowSkipsEviction` | examples/mario_dashboard/experience_memory.hpp:174-204 | after a frame with coordinates, names and counts within limits the export is refused exactly when the frame threw after its scan had gone beyond the column limit |
| `ExperiencePersistence.FullMemoryOverflows` | examples/mario_dashboard/experience_memory.hpp:174-204 | such a frame exists for every full memory: one new column, then an invalid row list |
| `ExperiencePersistence.ThrowsIff` | examples/mario_dashboard/experience_memory.hpp:174-198 | a frame's scan throws exactly when some visible candidate column has an invalid row list |
| `ExperiencePersistence.SizeAfter` | examples/mario_dashboard/experience_memory.hpp:174-204 | the column limit after a frame, exactly: exceeded when the scanned columns exceed it and the eviction is not reached, from within the limit only by a throw; the next scan that does not throw restores it |
| `ExperiencePersistence.FrameWithin` | examples/mario_dashboard/experience_memory.hpp:116-281 | what one frame can add to the keys, names and counts of the memory |
| `ExperiencePersistence.RunAccepted` | examples/mario_dashboard/experience_memory.hpp:116-416 | frames within the importer's limits in coordinates, names, row lists and total size lead from any memory within the limits to one whose document is accepted |
| `ExperiencePersistence.FreshRunAccepted` | examples/mario_dashboard/experience_memory.hpp:116-416 | in particular from a fresh memory |
| `ExperienceStore.KnowledgeMemory.ObserveFrame` | examples/mario_dashboard/experience_memory.hpp:116-281 | the in-place method does exactly one observation step |
| `ExperienceStore.KnowledgeMemory.EvictColumns` | examples/mario_dashboard/experience_memory.hpp:199-204 | only as many columns go as must, and none seen later than one that stays |
| `ExperienceStore.KnowledgeMemory.LoadDocument` | examples/mario_dashboard/experience_memory.hpp:347-416 | loads the whole document or leaves the memory as it was |
| `EntityTracks.TrackAccounted` | examples/mario_dashboard/adaptive_agent.hpp:381-413 | identities issued = confirmed + archived + live unconfirmed tracks, at most 128 tracks, ids distinct, after every observation |
| `EntityTracks.EvictedAccounted` | examples/mario_dashboard/adaptive_agent.hpp:389-394 | evicting the track seen least recently archives it exactly when it was not confirmed |
| `EntityTracks.CreditsAccount` | examples/mario_dashboard/adaptive_agent.hpp:406-413 | confirming moves exactly the attributed tracks from unconfirmed to confirmed |
| `EntityTracks.NoKillWithoutEvidence` | examples/mario_dashboard/adaptive_agent.hpp:381-404 | without an elimination event nothing becomes eliminated, whatever disappears |
| `EntityTracks.SeenAgain` | examples/mario_dashboard/adaptive_agent.hpp:384-401 | a sighting refreshes, under its identity, the first track of its slot and kind that is recent and close enough, and nothing else |
| `EntityTracks.SeenFirst` | examples/mario_dashboard/adaptive_agent.hpp:389-398 | any other sighting gets the next identity, with 128 tracks displacing the first of those seen least recently |
| `EntityTracks.ConfirmedAre` | examples/mario_dashboard/adaptive_agent.hpp:405-413 | an elimination event confirms exactly the close, recent tracks of its slot and kind |
| `EntityTracks.OutOfView` | examples/mario_dashboard/adaptive_agent.hpp:381 | what is not sighted is out of view, and only the eliminated stay decided |
| `EntityTracks.BoundaryForgets` | examples/mario_dashboard/adaptive_agent.hpp:258-262 | at a boundary no earlier track survives |
| `Forecasts.FrameFair` | examples/mario_dashboard/adaptive_agent.hpp:361-380 | after every frame each forecast is pending and not yet due, was scored exactly in its due frame, or is cancelled |
| `Forecasts.DecidedOnce` | examples/mario_dashboard/adaptive_agent.hpp:361-368 | a decided forecast stays decided, and one is scored only in its due frame of a contiguous run under its own action |
| `Forecasts.ForecastsAccount` | examples/mario_dashboard/adaptive_agent.hpp:361-380 | forecasts issued = pending + scored + cancelled |
| `Forecasts.DecideOpens` | examples/mario_dashboard/adaptive_agent.hpp:361-368 | the erase loop over the stored list is the decision over all forecasts issued |
| `Forecasts.MadeAre` | examples/mario_dashboard/adaptive_agent.hpp:369-380 | which forecasts a frame makes: every fourth frame, one for each horizon the path reaches, at that point of the path under the action held |
| `Forecasts.LaterErrors` | examples/mario_dashboard/adaptive_agent.hpp:19-22 | from 256 samples on a new error moves the mean by one 256th of its distance |
| `Forecasts.FrameTallied` | examples/mario_dashboard/adaptive_agent.hpp:361-368 | a frame adds to each horizon's error mean one sample for each forecast of that horizon it scores |
| `Forecasts.MeanIsAverage` | examples/mario_dashboard/adaptive_agent.hpp:19-22 | an error mean has one sample for each miss of its horizon and is their plain average up to 256 samples |
| `AdaptiveAgent.RunAccounts` | examples/mario_dashboard/adaptive_agent.hpp:214-422 | over every run with its resets and boundaries the accounts hold: identities, forecasts, and one error sample for each scored forecast of each horizon |
| `AdaptiveAgent.ForecastFate` | examples/mario_dashboard/adaptive_agent.hpp:283-368 | what a frame decides for each pending forecast: cancelled unless the frame directly follows in the same level and life, comparably and under the action forecast; scored when due |
| `AdaptiveAgent.ScoredMiss` | examples/mario_dashboard/adaptive_agent.hpp:364-366 | a scored forecast adds its distance from what was observed |
| `AdaptiveAgent.SeenBefore` | examples/mario_dashboard/adaptive_agent.hpp:226 | a frame seen before in the same level and life changes nothing |
| `AdaptiveAgent.NewRun` | examples/mario_dashboard/adaptive_agent.hpp:220 | a frame of another run is treated as the first ever |
| `AdaptiveAgent.GameOver` | examples/mario_dashboard/adaptive_agent.hpp:221-223 | the end of the game forgets everything but the run |
| `AdaptiveAgent.BoundaryForgetsTracks` | examples/mario_dashboard/adaptive_agent.hpp:224-262 | at a new level, a new life or a frame gone back no earlier track survives |
| `AdaptiveAgent.TracksContinue` | examples/mario_dashboard/adaptive_agent.hpp:224-381 | at any other frame every track stays |
| `AdaptiveAgent.Agent.Observe` | examples/mario_dashboard/adaptive_agent.hpp:214-422 | the in-place method does exactly one bookkeeping step: run change, game over, repeated frame, boundary, ordinary frame |
| `AdaptiveAgent.Agent.DropDecided` | examples/mario_dashboard/adaptive_agent.hpp:361-368 | the erase loop keeps undecided forecasts in order, counts the cancelled and adds the error of each scored one to the mean of its horizon |
| `AdaptiveAgent.Agent.HorizonError` | examples/mario_dashboard/adaptive_agent.hpp:436-439 | the mean reported for a horizon has as many samples as forecasts of it were scored, and up to 256 it is their average error |
| `AdaptiveAgent.Agent.SeeOne` | examples/mario_dashboard/adaptive_agent.hpp:384-401 | matching, eviction and discovery for one sighting |
| `AdaptiveAgent.Agent.ConfirmOne` | examples/mario_dashboard/adaptive_agent.hpp:407-412 | confirmation for one elimination event |
| `AdaptiveAgent.Agent.Unresolved` | examples/mario_dashboard/adaptive_agent.hpp:422-428 | what the world view reports unresolved is all identities issued and not confirmed |

## Left out

- What the HTTP services, ONNX Runtime, ggml, the tokenizers, the emulator and the dashboard answer. They appear as arbitrary functions or step inputs, so the theorems hold whatever they answer, and say nothing about whether an answer is good.
- Durations. A timed wait may end at any step and an expiry test may answer either way, so no bound on waiting time follows; failing allocations are not covered either.
- `executing_pool` (the guard against a worker waiting for itself) and joining of threads: thread identity is not modelled.
- Floating-point rounding, softmax and temperature calibration. Scoring a row and testing a score for finiteness are arbitrary functions, as is hypot in forecast errors.
- Rendering of options and the replacement of mask tokens in texts before tokenizing: layouts start from the tokens, and the two backends apply the replacement to slightly different texts.
- The native backend's numbering of question kinds in its cache key (score 1, noul 2): the key is injective for either numbering.
- The deadline tests of the native backend before and after its model call: a request that expires there fails the whole call.
- ONNX subgraphs, attributes other than the cast target, and tensor element types.
- compile_knowledge_context with a caller-supplied JSON formatter, the two digests, and status() of the knowledge graph.
- The library sorts: `StableSortUnique` shows their result is determined.
- Reuse of the flat token buffers of src/laya.cpp: they are reassigned in full for every batch. The mask buffer, which is not, is modelled with arbitrary old content.
- learning_delta, context() and snapshot() of the experience memory: reports over the modelled state. The JSON text of its document and its derived fields (stddev, confidence) are not part of this model.
- Type errors in telemetry JSON: a frame's fields are given; an invalid collision row list is the one error that throws.
- The adaptive agent's physics estimates, flight evidence, plans and steering. The accounts of identities, forecasts and errors do not depend on them; whether two frames are comparable is decided there and is an input here.
- skill.hpp, plan_ranking.hpp, game_session.py, the strategy worker of async_runner.py, and grouping and retries in src/remote.cpp. Nothing modelled here calls them, and no theorem speaks about skill choice, plan ranking or remote retries.
- ExperienceMemory.Trimmed: among columns last seen equally early, which only an import can produce, any may be evicted first; the program takes the first in key order.
- ExperienceInvariant.ObserveKeeps: m2 and mean of a memory that imported statistics are bounded, not tied to samples, because the samples behind an imported document are unknown.
