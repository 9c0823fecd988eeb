# A verified model of the Kartograph analytics, extraction and session core

Kartograph builds knowledge graphs from repositories. This project models the parts of it in which
state, concurrency or arithmetic make mistakes easy, and proves what each is relied on for:

* **Graph analytics** (`Graphs`, `ShortestPaths`, `Betweenness`, `PageRank`, `Communities`,
  `GraphStatistics`, `TypeImbalance`, `Buckets`). The loops of the metrics script over the symmetric
  adjacency map its loader builds: exact breadth-first distances, credited shortest paths, conservation of
  rank, label propagation with its fixpoint and its convergence, and the bounds of the local metrics.
* **Extraction runs** (`ExtractionRun`, `Orchestrator`). Workers claiming jobs from a shared table while a run
  is started, scaled, paused, halted, reset and reconciled and single jobs are cancelled, as a transition system
  whose executions are all interleavings; the orchestrator object carries out its steps.
* **Mutation batches** (`MutationBatch`, `MutationOrder`, `MutationEffects`, `Sorting`). Validation, the class order, and what
  that order buys over a store with the documented meaning of the operations.
* **Sticky runtimes** (`ContainerNames`, `RuntimeLeases`, `LeaseSimulation`, `LeaseManagers`). The container-backed
  lease manager, over a container engine on the heap in which containers may crash, and the in-memory
  manager it agrees with.
* **Sessions and their journal** (`Text`, `MutationMetrics`, `SessionJournal`, `ArchivedHistory`, `Sessions`,
  `SessionRuns`, `SessionService`). Everything a session applies is accounted for exactly once in mutation history.
* **Repository files** (`Materialization`, `RepositoryFiles`). The algebra of merged outcomes, and what "not
  found" means for a requested path.
* **Cypher literals** (`CypherLiteral`). The literal printer is uniquely decodable.
* **Activity log** (`ActivityLog`, `ActivityRoundTrip`). What the reader gives back of what the writer wrote.

`Sums` holds the laws of finite sums, `Collections` facts about sets and sequences, `Wrappers` optional values and results. Loops of the program are
loops here, objects with updated fields are classes, and each such method is proved to do what a function
or a declarative specification says; the theorems are about those. Node ids, pool ids and container ids are
wrapped in one-field datatypes. Real numbers stand for floats, and sampling and shuffling for arbitrary choices.
Check the project with `dafny verify dfyconfig.toml`.

## What the proofs found

* `random.sample(eligible, 2)` raises when exactly one node is eligible (`Betweenness.ComputeBetweenness`).
* The reciprocity score is 1 whenever anything is checked and 0 otherwise: the adjacency map it reads is
  symmetric by construction (`GraphStatistics.ComputeReciprocity`).
* A job can be failed while its worker goes on executing it, whose later success then overwrites the failure: by a
  halt after a pause and a restart, as a worker of a paused pool outlives them (`ExtractionRun.HaltMayCatchAWorker`,
  `ExtractionRun.DirtyHaltBreaksOrder`), and by cancelling the job, which stops no worker
  (`ExtractionRun.CancelMayCatchAWorker`, `ExtractionRun.DirtyCancelBreaksOrder`). A cancellation also tests the status
  only when it begins, so it fails a job that has been archived meanwhile (`ExtractionRun.CancelMayFailAnArchivedJob`).
  Apart from such successes, late cancellations and resets, every step moves statuses forward (`ExtractionRun.StepIsForward`).
* A reset leaves every holder in place, but a job that is pending again can be claimed by a second worker. Two
  workers can come to execute one job exactly if the reset took a job that somebody holds
  (`ExtractionRun.ResetDoublesExactly`), for all jobs exactly if somebody executes
  (`Orchestrator.ExtractionRunOrchestrator.ResetAllNonPending`); both a halt and a cancellation lead there
  (`ExtractionRun.ResetMayDoubleAJob`, `ExtractionRun.CancelMayDoubleAJob`).
* Reconciliation treats halted and paused runs as active, although its documentation speaks of active runs: any
  row that is not idle turns idle on a drained queue (`ExtractionRun.ReconcileTurnsIdle`), so polling a halted run
  advances the baselines (`ExtractionRun.HaltedRunAdvances`).
* Session ids that do not keep their spelling share a container name with one that does, or with every other id of which
  nothing is left (`ContainerNames.OthersShareTheirNames`), and a remembered container id of another session is
  adopted without question (`RuntimeLeases.SharingNeedsForeignHint`).
* The in-memory manager cannot fail to start, so the two lease managers come apart when a session without a lease, or
  one being reset, cannot be given a container (`LeaseSimulation.GetOrStartSimulates`, `LeaseSimulation.ResetSimulates`).
  They also come apart when somebody asks whether a session with an expired lease is active: the container manager
  adopts the running container and renews the lease, the in-memory one says no and leaves the lease expired
  (`LeaseSimulation.ActivityAgrees`). Crashes aside, and with a positive lifetime, they differ in no other case
  (`LeaseSimulation.StepSimulates`). After a crash a refused restart leaves a lease on a container that has been
  removed (`LeaseSimulation.StaleLeaseStays`, `LeaseSimulation.StaleLeaseReached`).
* A session that used tokens but wrote nothing leaves no history row, so its usage is in no row
  (`SessionJournal.UsageOfIdleSessionsIsDropped`); the stored columns of a row miss its deletes (`SessionJournal.ColumnsMissDeletes`).
* A requested path is reported as not found when every file it matches is taken by an earlier request
  (`RepositoryFiles.ReportedThoughMatched`), as for a file in a directory that is asked for first
  (`RepositoryFiles.DirectoryTakesTheFile`).
* Map keys are printed raw, so a key that is not an identifier can read as several entries (`CypherLiteral.RawKeysAreAmbiguous`).

## Model

| member | source | states |
|---|---|---|
| Graphs.LoadGraph | scripts/graph_metrics.py:369-420 | the loaded graph holds every vertex and edge end, each node's degree is the number of row ends that touch it, and neighbours are exactly the nodes sharing a row, in either direction |
| Graphs.LoadDegrees | scripts/graph_metrics.py:375-402 | adding up the grouped start and end counts over all tables gives each node's true incidence, self-loops counted twice |
| Graphs.LoadAdjacency | scripts/graph_metrics.py:404-410 | the two set insertions per row build exactly the undirected neighbour relation |
| Graphs.LoadedIsSymmetric | scripts/graph_metrics.py:404-410 | on every loaded graph adjacency is symmetric and stays within the degree map |
| Graphs.Handshake | scripts/graph_metrics.py:387-402 | degrees sum to twice the number of edge rows |
| Graphs.NeighboursWithinDegree | scripts/graph_metrics.py:404-410 | a neighbour set is never larger than the degree |
| Graphs.BallIsWalks | scripts/graph_metrics.py:645-660 | the reference notion of distance: a node is within k steps if and only if a walk of at most k steps reaches it |
| ShortestPaths.SearchFrom | scripts/graph_metrics.py:646-660 | one capped search visits exactly the nodes within the cap, each with its true shortest distance, and adds one entry per other node at that distance, the maximum kept |
| ShortestPaths.ComputePaths | scripts/graph_metrics.py:642-660 | over all sources, the entries at distance d number the (source, node) pairs at exactly that distance, none at 0 or past the cap; `max_path` is the largest entry |
| ShortestPaths.DistancesExact | scripts/graph_metrics.py:649-660 | once every recorded node below a level is expanded, recorded distances up to that level are the true ones |
| Betweenness.FindTarget | scripts/graph_metrics.py:701-716 | the early-exit search finds the target if and only if its distance is within the cap, with its true distance and a parent tree in the graph |
| Betweenness.CreditPath | scripts/graph_metrics.py:718-724 | the parent walk terminates, traces a shortest path, and raises the count of exactly its interior nodes by one |
| Betweenness.InteriorOfShortest | scripts/graph_metrics.py:720-724 | a shortest path between different nodes has distance minus one distinct interior nodes, neither end among them |
| Betweenness.ComputeBetweenness | scripts/graph_metrics.py:693-724 | each node's count is the number of sampled pairs whose traced shortest path passes through it; the sampling raises exactly when one node is eligible and pairs are wanted |
| PageRank.ComputePageRank | scripts/graph_metrics.py:742-755 | the nested loops compute the iterated rank update |
| PageRank.FlowsExchange | scripts/graph_metrics.py:748-753 | what all nodes receive is what all nodes give away, row sums and column sums exchanged |
| PageRank.OutflowIsDampedRank | scripts/graph_metrics.py:750-753 | by symmetry a node with neighbours gives away exactly its damped rank, an isolated one nothing |
| PageRank.NextTotal | scripts/graph_metrics.py:747-755 | the total after one iteration is 0.15 and 0.85 times the rank held by connected nodes |
| PageRank.TotalRank | scripts/graph_metrics.py:743-755 | after any number of iterations total rank is at most 1, and equal to 1 if and only if none was made or no node is isolated |
| PageRank.RanksAtLeastBase | scripts/graph_metrics.py:743-755 | after any number of iterations every rank is at least (1 - damping)/n |
| PageRank.NextContracts | scripts/graph_metrics.py:747-755 | one iteration brings any two rankings closer, by the damping factor at least |
| PageRank.Converges | scripts/graph_metrics.py:743-755 | after k iterations the ranks are within 0.85 to the k of any ranking that an iteration leaves as it is, times the distance at the start |
| PageRank.FixedRanksAreUnique | scripts/graph_metrics.py:747-755 | at most one ranking is left as it is by an iteration |
| Communities.CountLabels | scripts/graph_metrics.py:896-898 | the counts are the votes of the neighbours for each label, none for labels without votes |
| Communities.PickBest | scripts/graph_metrics.py:900-902 | the least label among the most voted |
| Communities.Sweep | scripts/graph_metrics.py:889-905 | one sweep in any order keeps labels localised and counts its changes; without a change the labelling is settled |
| Communities.Propagate | scripts/graph_metrics.py:884-909 | under any shuffles every label is a node of the same component, isolated nodes keep their own, stopping early means every connected node carries the least of its neighbours' most frequent labels, and a large enough iteration limit always stops early |
| Communities.AgreementAfterChange | scripts/graph_metrics.py:900-905 | how the number of agreeing neighbour pairs moves when one node changes its label |
| Communities.ChangeRaisesPotential | scripts/graph_metrics.py:900-905 | every change to a plurality label raises a bounded potential, so changes are finitely many |
| Communities.PotentialBounds | scripts/graph_metrics.py:887-909 | the bound on the number of changes |
| Communities.AdoptKeepsLocalised | scripts/graph_metrics.py:896-905 | adopting a neighbour's label never leaves the component |
| Communities.CommunitySizes | scripts/graph_metrics.py:914-919 | each size is the positive number of nodes with that label, and the sizes sum to the node count |
| TypeImbalance.WeightedIsPairGaps | scripts/graph_metrics.py:790-790 | the weighted sum over the sorted counts is the sum of all pairwise gaps |
| TypeImbalance.GiniRange | scripts/graph_metrics.py:785-791 | the score lies between 0 and (n-1)/n and is 0 if and only if all counts are equal |
| TypeImbalance.GiniIsMeanDistance | scripts/graph_metrics.py:785-791 | the score is the sum of the distances between any two counts over their number times their total, in whatever order they stand |
| GraphStatistics.CountPairs | scripts/graph_metrics.py:582-588 | the doubly nested count is the number of linked pairs of the listing |
| GraphStatistics.PairsIgnoreOrder | scripts/graph_metrics.py:582-588 | that number does not depend on the order in which the neighbours are listed |
| GraphStatistics.PairsBounded | scripts/graph_metrics.py:583-590 | pairs found never exceed k(k-1)/2, with equality exactly for a clique |
| GraphStatistics.ComputeClustering | scripts/graph_metrics.py:572-591 | one coefficient per sampled node with two neighbours or more, as a function of the graph alone |
| GraphStatistics.CoefficientRange | scripts/graph_metrics.py:590-591 | a coefficient lies in [0, 1] and is 1 exactly when the neighbours form a clique |
| GraphStatistics.CoefficientCounts | scripts/graph_metrics.py:582-591 | a coefficient is the share of the ordered pairs of different neighbours that are linked |
| GraphStatistics.CoefficientsCover | scripts/graph_metrics.py:572-591 | there is one coefficient for each sampled node with two neighbours or more, in order, and none for any other |
| GraphStatistics.ComputeReciprocity | scripts/graph_metrics.py:829-840 | on a symmetric map reciprocal equals checked, so the score is 1 if any sampled node has a neighbour and 0 otherwise |
| GraphStatistics.HubsAreLargest | scripts/graph_metrics.py:851-853 | the hubs are five nodes, or all, that no other node exceeds in degree |
| GraphStatistics.HubEdgesWithinTotal | scripts/graph_metrics.py:855-863 | hub entries counted from both ends never exceed twice the edge rows |
| GraphStatistics.HubSumCounts | scripts/graph_metrics.py:855-863 | the hub entries are the entries of the adjacency map of which one end is a hub |
| GraphStatistics.ComputeResilience | scripts/graph_metrics.py:851-875 | the halved hub count over the edge total, always in [0, 1], and the label its thresholds give |
| Buckets.Bucketize | scripts/graph_metrics.py:85-95 | each label counts the values whose first admitting bucket carries it, and the counts add up to the admitted values |
| Buckets.UnboundedAdmitsAll | scripts/graph_metrics.py:85-95 | with an unbounded bucket no value is lost |
| Buckets.AscendingIntervals | scripts/graph_metrics.py:78-95 | buckets in ascending order are intervals: a value lands where it is above the bound before and not above the bound itself |
| ExtractionRun.StepKeepsInv | src/api/extraction/infrastructure/extraction_run_orchestrator.py:50-235 | every step of a worker or a control call keeps: one holder per job, held jobs in progress or failed by a halt or a cancellation, worker slots never reused; a reset keeps all of this if and only if it takes no job from a worker |
| ExtractionRun.ResetKeepsInv | src/api/extraction/infrastructure/repositories/extraction_job_repository.py:613-651 | which resets keep that invariant, for each set of statuses; resetting completed jobs always does |
| ExtractionRun.ExclusiveHolders | src/api/extraction/infrastructure/extraction_run_orchestrator.py:152-223 | in every execution whose resets take no job from a worker, at every moment, no two workers hold the same job |
| ExtractionRun.ResetDoublesExactly | src/api/extraction/infrastructure/repositories/extraction_job_repository.py:613-651 | a reset leaves no job with two holders by itself; steps without a further reset after which a job has two are possible if and only if it took a job from a worker |
| ExtractionRun.SecondHolder | src/api/extraction/infrastructure/extraction_run_orchestrator.py:57-193 | whatever is under way, a pending job that somebody holds gets a second holder by starts and claims alone |
| ExtractionRun.ResetMayDoubleAJob | src/api/infrastructure/management/extraction_jobs_service.py:739-746 | a reachable execution that gets there: pause, restart, halt, reset of failed jobs |
| ExtractionRun.CancelMayDoubleAJob | src/api/infrastructure/management/extraction_jobs_service.py:285-334 | another, with no pause, restart or halt: cancel a running job, reset failed jobs |
| ExtractionRun.OnlyClaimsStartWork | src/api/extraction/infrastructure/extraction_run_orchestrator.py:158-193 | only a claim gives a worker a job, and it takes a pending one while no pause is stored |
| ExtractionRun.HeldJobsWereClaimed | src/api/extraction/infrastructure/extraction_run_orchestrator.py:174-198 | in every execution, whatever is reset, whoever holds a job claimed it from pending, with no pause stored, and has held it ever since |
| ExtractionRun.PauseDrains | src/api/extraction/infrastructure/extraction_run_orchestrator.py:105-117 | from a stored pause until a start, halt or reconciliation commits, no job newly becomes in progress |
| ExtractionRun.StoppedPoolWindsDown | src/api/extraction/infrastructure/extraction_run_orchestrator.py:152-198 | over any execution a stop event stays set, and from then on each worker of the pool comes to hold at most the one job it was already polling for |
| ExtractionRun.StoppedRunClaimsNothing | src/api/extraction/infrastructure/extraction_run_orchestrator.py:119-135 | after a halt or a stop no worker of the registered pool ever comes to hold a job, not even one still to be spawned |
| ExtractionRun.PausedPoolIsStopped | src/api/extraction/infrastructure/extraction_run_orchestrator.py:160-172 | a row turns to paused only when a worker honours the pause, and its pool is stopped with it |
| ExtractionRun.JobsComeAndGoPending | src/api/extraction/infrastructure/repositories/extraction_job_repository.py:295-309 | a job appears and disappears as a pending one only |
| ExtractionRun.StepIsForward | src/api/extraction/infrastructure/repositories/extraction_job_repository.py:513-651 | a step moves every job forward if and only if it does not store a success over a failed job, cancel a job that has left the executor, or reset one |
| ExtractionRun.CleanHaltsKeepOrder | src/api/extraction/infrastructure/extraction_run_orchestrator.py:129-150 | if no halt and no reset of jobs in progress commits while a worker is executing, and no held job is cancelled, held jobs stay in progress with one holder each, and a step moves all statuses forward if and only if it is no late cancellation and resets nothing |
| ExtractionRun.HeldStayInProgress | src/api/extraction/infrastructure/repositories/extraction_job_repository.py:573-651 | and those conditions are exact: while all held jobs are in progress, a step leaves them so if and only if it meets them |
| ExtractionRun.DirtyHaltBreaksOrder | src/api/extraction/infrastructure/extraction_run_orchestrator.py:129-150 | if a halt does, the worker's success can follow and takes the job from failed to completed |
| ExtractionRun.DirtyCancelBreaksOrder | src/api/infrastructure/management/extraction_jobs_service.py:329-334 | so it can when the job of a worker is cancelled |
| ExtractionRun.HaltMayCatchAWorker | src/api/extraction/infrastructure/extraction_run_orchestrator.py:160-172 | a reachable execution in which a halt finds a worker executing: pause, restart, halt |
| ExtractionRun.CancelMayCatchAWorker | src/api/infrastructure/management/extraction_jobs_service.py:316-334 | a reachable execution without halts and resets in which a failed job is still held: start, claim, cancel |
| ExtractionRun.CancelMayFailAnArchivedJob | src/api/extraction/infrastructure/repositories/extraction_job_repository.py:573-591 | a reachable execution in which a cancellation takes an archived job to failed: its worker finished after the status was tested |
| ExtractionRun.IdleOnlyWhenDrained | src/api/extraction/infrastructure/extraction_run_reconciliation.py:41-73 | a run row turns idle only by reconciliation with nothing pending or in progress; baselines advance exactly then, provided no job failed |
| ExtractionRun.ReconcileTurnsIdle | src/api/extraction/infrastructure/extraction_run_reconciliation.py:41-57 | reconciling turns the row idle if and only if there is a row that is not idle and nothing is pending or in progress |
| ExtractionRun.HaltedRunAdvances | src/api/extraction/infrastructure/extraction_run_reconciliation.py:46-71 | over any finished job table without failures, a halt followed by a poll advances the baselines |
| ExtractionRun.BaselinesCountFinishes | src/api/extraction/infrastructure/extraction_run_reconciliation.py:51-73 | over any execution baselines advance once per clean finish and never otherwise |
| ExtractionRun.ReconcileIdleIsNoOp | src/api/extraction/infrastructure/extraction_run_reconciliation.py:46-48 | polling an idle run changes nothing |
| ExtractionRun.ReconcileTwice | src/api/extraction/infrastructure/extraction_run_reconciliation.py:41-78 | from any state a second reconciliation changes nothing |
| Orchestrator.ExtractionRunOrchestrator.SpawnWorkers | src/api/extraction/infrastructure/extraction_run_orchestrator.py:96-103 | afterwards there is a worker at its loop test in exactly the slots from the old task count up to the target, everybody else as before |
| Orchestrator.ExtractionRunOrchestrator.BeginStart | src/api/extraction/infrastructure/extraction_run_orchestrator.py:57-79 | afterwards a live pool of at least one and at least the requested number of workers is registered, a pool already that large left as it is; no job is touched and no worker gains one |
| Orchestrator.ExtractionRunOrchestrator.PauseRun | src/api/extraction/infrastructure/extraction_run_orchestrator.py:105-117 | with the request stored no poll of any worker changes a job |
| Orchestrator.ExtractionRunOrchestrator.StopPool | src/api/extraction/infrastructure/extraction_run_orchestrator.py:119-127 | exactly the workers of the registered pool lose their jobs, and its stop event is set |
| Orchestrator.ExtractionRunOrchestrator.TestStop | src/api/extraction/infrastructure/extraction_run_orchestrator.py:157-157 | a worker of a stopped pool leaves, any other goes on to poll; nobody gets a job |
| Orchestrator.ExtractionRunOrchestrator.CommitHalt | src/api/extraction/infrastructure/extraction_run_orchestrator.py:137-150 | afterwards nothing is in progress, no pause is stored, and whoever still executes holds a failed job |
| Orchestrator.ExtractionRunOrchestrator.PollForJob | src/api/extraction/infrastructure/extraction_run_orchestrator.py:158-193 | under a stored pause no job moves and the pool stops; a claimed job was pending and has this worker as its only holder; a worker goes on to finish the run exactly on a drained queue |
| Orchestrator.ExtractionRunOrchestrator.StoreOutcome | src/api/extraction/infrastructure/extraction_run_orchestrator.py:195-223 | no other job changes and nobody holds this one any more |
| Orchestrator.ExtractionRunOrchestrator.ReconcileQuiescent | src/api/extraction/infrastructure/extraction_run_reconciliation.py:41-78 | reports and acts exactly on a drained queue with a row that is not idle; baselines advance unless a job has failed |
| Orchestrator.ExtractionRunOrchestrator.MaybeFinishRun | src/api/extraction/infrastructure/extraction_run_orchestrator.py:227-235 | stops the worker's own pool and drops whichever pool is registered; no job is touched and the worker is gone |
| Orchestrator.ExtractionRunOrchestrator.EnsureWorkersForPending | src/api/extraction/infrastructure/extraction_run_orchestrator.py:251-279 | starts workers exactly for pending jobs of a running or pausing row without a live pool |
| Orchestrator.ExtractionRunOrchestrator.ResetJobsByStatus | src/api/extraction/infrastructure/repositories/extraction_job_repository.py:613-634 | no job of the status is left and no job has two holders yet; it becomes possible that one gets them if and only if a held job was reset |
| Orchestrator.ExtractionRunOrchestrator.ResetAllNonPending | src/api/extraction/infrastructure/repositories/extraction_job_repository.py:636-651 | the three resets in turn; it becomes possible that a job gets two holders if and only if somebody executes |
| Orchestrator.ExtractionRunOrchestrator.BeginCancel | src/api/infrastructure/management/extraction_jobs_service.py:285-328 | a pending job, which nobody holds, is removed; a running one goes on to be failed; any other is refused; nothing else changes |
| Orchestrator.ExtractionRunOrchestrator.CommitCancel | src/api/extraction/infrastructure/repositories/extraction_job_repository.py:573-591 | the job is failed whatever its status is by then, and whoever executes it can still store a success over that |
| Orchestrator.ExtractionRunOrchestrator.PromoteCompletedJob | src/api/extraction/infrastructure/repositories/extraction_job_repository.py:423-454 | archives a job exactly if it is completed, and says so |
| MutationBatch.SortIsStablePermutation | src/api/graph/infrastructure/mutation_applier.py:50-81 | the sorted batch is a permutation in class order that keeps submission order within a class |
| MutationBatch.InvalidBatchTouchesNothing | src/api/graph/infrastructure/mutation_applier.py:98-136 | with any invalid operation nothing reaches the strategy, the count is 0 and the error is that of the first invalid one; otherwise the strategy gets the sorted batch |
| MutationBatch.NodesAfter | src/api/graph/domain/value_objects.py:217-230 | which nodes a sorted run leaves: those created, and those present and not deleted |
| MutationBatch.EdgesAfter | src/api/graph/domain/value_objects.py:217-230 | which edges a sorted run leaves, with whose endpoints |
| MutationBatch.NoPrefixDangles | src/api/graph/infrastructure/mutation_applier.py:55-62 | if the created edges' endpoints survive or are created, no prefix of the sorted run leaves a dangling edge |
| MutationBatch.CleanResultMeansAvailable | src/api/graph/infrastructure/mutation_applier.py:55-62 | conversely, a run that ends without dangling edges had its endpoints available, when each edge id is created once |
| MutationBatch.UnsortedMayDangle | src/api/graph/infrastructure/mutation_applier.py:127-131 | without sorting, a prefix can dangle |
| MutationOrder.Commute | src/api/graph/domain/value_objects.py:217-233 | equal operations, and compatible ones of one class, can be run in either order |
| MutationOrder.SortedRunsAgree | src/api/graph/infrastructure/mutation_applier.py:71-81 | two sorted runs of the same operations, different ones of a class not in conflict, end in the same store |
| MutationOrder.OrderDoesNotMatter | src/api/graph/infrastructure/mutation_applier.py:83-93 | submitting a conflict-free batch in any order gives the same store |
| MutationOrder.CreatesAccount | src/api/graph/domain/value_objects.py:219-223 | what a batch of discoveries adds up to, entity by entity, later values winning and unlisted properties kept |
| MutationOrder.CreatesAreIdempotent | src/api/graph/domain/value_objects.py:219-223 | applying a batch of discoveries twice is applying it once |
| MutationEffects.BatchAccount | src/api/graph/infrastructure/mutation_applier.py:50-81 | for every valid conflict-free batch, in whatever order: whether each node and edge is there, its label, and each property: gone if an update removes it, else as an update sets it, else as a creation sets it, else as it was |
| MutationEffects.UpdateReachesCreated | src/api/graph/infrastructure/mutation_applier.py:61-62 | an update reaches an entity that the same batch creates |
| MutationEffects.BatchTypes | src/api/graph/domain/value_objects.py:355-380 | every type the batch declares is declared as asked, every other is as it was |
| MutationEffects.SortedAsDocumented | src/api/graph/infrastructure/mutation_applier.py:55-62 | the sorted batch follows the documented order: declarations, deleted edges, deleted nodes, created nodes, created edges, updates |
| MutationEffects.AcceptedExactly | src/api/graph/domain/value_objects.py:271-353 | which operations are valid: what each kind must carry and must not |
| ContainerNames.SpellingIsKept | src/api/extraction/infrastructure/container_workload_runtime.py:31-37 | an id appears unchanged in its container name if and only if it has 1 to 45 characters, all safe, and neither starts with a hyphen nor ends with a mark |
| ContainerNames.NamesMeetInCores | src/api/extraction/infrastructure/container_workload_runtime.py:31-37 | two ids share a name if and only if the same is left of both |
| ContainerNames.KeptIdsGetDistinctNames | src/api/extraction/infrastructure/container_workload_runtime.py:31-37 | ids that keep their spelling have names of their own |
| ContainerNames.OthersShareTheirNames | src/api/extraction/infrastructure/container_workload_runtime.py:31-37 | any other id shares its name with one that keeps its spelling, or, if nothing is left of it, with every id of which nothing is left |
| ContainerNames.SomeIdsCollide | src/api/extraction/infrastructure/container_workload_runtime.py:31-37 | any run of unsafe characters between two safe ones, or at an end, gives the name that one hyphen gives |
| RuntimeLeases.GetOrStartCorrect | src/api/extraction/infrastructure/container_workload_runtime.py:95-144 | keeps the fleet invariant; a returned lease is stored, runs for the full lifetime from now, and its container is running; a refusal leaves the leases alone; other sessions are untouched |
| RuntimeLeases.GetOrStartAccount | src/api/extraction/infrastructure/container_workload_runtime.py:95-144 | case by case the whole state and answer: a running container is kept with a renewed lease; else one is launched exactly if the credentials are absent or cover the tenant, the graph and writing and have not expired, and the engine answers; else the containers of the session are gone, its lease is as it was, and the error says why |
| RuntimeLeases.StartRefusals | src/api/extraction/infrastructure/container_workload_runtime.py:318-328 | which error a start is refused with: missing scopes first, then expiry, then the engine; a refusal for the credentials touches nothing |
| RuntimeLeases.ResetCorrect | src/api/extraction/infrastructure/container_workload_runtime.py:146-164 | on success the session has a new container; on refusal it has no lease |
| RuntimeLeases.TerminateKeepsInv | src/api/extraction/infrastructure/container_workload_runtime.py:166-176 | removes the lease and every container of the session |
| RuntimeLeases.TerminateAccount | src/api/extraction/infrastructure/container_workload_runtime.py:166-176 | exactly the session's lease and its containers go, all else stays |
| RuntimeLeases.CleanupCorrect | src/api/extraction/infrastructure/container_workload_runtime.py:178-189 | leaves no expired lease, and every unexpired one as it was |
| RuntimeLeases.CleanupAccount | src/api/extraction/infrastructure/container_workload_runtime.py:178-189 | exactly the expired leases and the containers of their sessions go |
| RuntimeLeases.TryResolveCorrect | src/api/extraction/infrastructure/container_workload_runtime.py:191-241 | with the session's own hint, answers a lease if and only if the session's container is running: the old lease renewed, without its token once it had expired; otherwise nothing changes |
| RuntimeLeases.SharingNeedsForeignHint | src/api/extraction/infrastructure/container_workload_runtime.py:221-240 | resolving makes two sessions share a container if and only if the own lease is not live and the hint is another session's running container |
| RuntimeLeases.NoSharing | src/api/extraction/infrastructure/container_workload_runtime.py:95-176 | under the invariant no two sessions share a container and names are unique |
| LeaseSimulation.RunIsSafe | src/api/extraction/infrastructure/container_workload_runtime.py:95-292 | over every run, crashes included, each container not removed is held by the lease of its own session and none is shared |
| LeaseSimulation.EmptyFleetIsSafe | src/api/extraction/infrastructure/container_workload_runtime.py:93-93 | a new manager over session ids that keep their spelling satisfies the invariant the runs start from |
| LeaseSimulation.RefusedExactly | src/api/extraction/infrastructure/container_workload_runtime.py:95-144 | in any fleet a start is refused if and only if the session holds no running container and none can be launched |
| LeaseSimulation.StaleLeaseStays | src/api/extraction/infrastructure/container_workload_runtime.py:132-144 | afterwards the lease points to a removed container if and only if the session had a lease, its container was not running, and none could be launched |
| LeaseSimulation.StaleLeaseReached | src/api/extraction/infrastructure/container_workload_runtime.py:132-144 | a run that gets there: start, crash, refused restart |
| LeaseSimulation.GetOrStartSimulates | src/api/extraction/infrastructure/workload_runtime.py:37-70 | from matching states the expiry maps stay equal if and only if the session has a lease or a container can be launched, and then the states still match |
| LeaseSimulation.ResetSimulates | src/api/extraction/infrastructure/workload_runtime.py:72-87 | for a reset they stay equal if and only if a container can be launched |
| LeaseSimulation.TerminateSimulates | src/api/extraction/infrastructure/workload_runtime.py:89-97 | terminating keeps the states matching |
| LeaseSimulation.CleanupSimulates | src/api/extraction/infrastructure/workload_runtime.py:99-109 | so does cleaning up |
| LeaseSimulation.ActivityAgrees | src/api/extraction/infrastructure/workload_runtime.py:111-151 | the activity answers are equal if and only if the session has no expired lease at that instant, and then the states still match; else the expiry maps come apart, unless the renewed lease expires when the old one did |
| LeaseSimulation.ActivityAgreesAfterCleanup | src/api/extraction/infrastructure/workload_runtime.py:133-151 | they always agree once expired leases have been cleaned up at that instant |
| LeaseSimulation.StepSimulates | src/api/extraction/infrastructure/workload_runtime.py:30-151 | every operation but a crash is answered alike if and only if its condition, known beforehand, holds; then the states still match, and else, with a positive lifetime, the expiry maps come apart |
| LeaseSimulation.RunSimulates | src/api/extraction/infrastructure/workload_runtime.py:30-151 | over whole runs in which each operation meets its condition beforehand, both managers give the same answers and end with the same expiry map |
| LeaseManagers.ContainerStickySessionRuntimeManager.GetOrStartRuntime | src/api/extraction/infrastructure/container_workload_runtime.py:95-144 | the method has the specified effect on leases and containers, and result |
| LeaseManagers.ContainerStickySessionRuntimeManager.ResetRuntime | src/api/extraction/infrastructure/container_workload_runtime.py:146-164 | the same for a reset |
| LeaseManagers.ContainerStickySessionRuntimeManager.TerminateRuntime | src/api/extraction/infrastructure/container_workload_runtime.py:166-176 | the same for a termination |
| LeaseManagers.ContainerStickySessionRuntimeManager.CleanupExpired | src/api/extraction/infrastructure/container_workload_runtime.py:178-189 | ends exactly the expired leases, and returns exactly their containers, one each |
| LeaseManagers.ContainerStickySessionRuntimeManager.TryResolveActiveLease | src/api/extraction/infrastructure/container_workload_runtime.py:191-241 | the hint loop takes the first running hint, the remembered one before the named one |
| LeaseManagers.ContainerStickySessionRuntimeManager.IsRuntimeActive | src/api/extraction/infrastructure/container_workload_runtime.py:243-261 | answers whether a lease was resolved, refreshing it |
| LeaseManagers.ContainerStickySessionRuntimeManager.AdoptRunningContainerIfPresent | src/api/extraction/infrastructure/container_workload_runtime.py:263-292 | adopts a running container by hint or by name, without a token |
| LeaseManagers.ContainerStickySessionRuntimeManager.StartSessionRuntime | src/api/extraction/infrastructure/container_workload_runtime.py:294-401 | launches exactly if the credentials are admitted and the engine answers; removal by name first; the lease is for the new container, with a token |
| LeaseManagers.InMemoryStickySessionRuntimeManager.GetOrStartRuntime | src/api/extraction/infrastructure/workload_runtime.py:37-70 | renews an unexpired lease or stores a new one, and touches no other |
| LeaseManagers.InMemoryStickySessionRuntimeManager.CleanupExpired | src/api/extraction/infrastructure/workload_runtime.py:99-109 | drops exactly the expired leases and returns their identifiers, one each |
| Text.CodePoints | src/api/extraction/application/graph_management_session_journal.py:73-79 | which characters end a line and which are white space, by code point, as Python documents them |
| Text.StripShape | src/api/extraction/application/graph_management_session_journal.py:73-79 | stripping cuts a blank prefix and a blank suffix and nothing else |
| Text.StripKeepsLines | src/api/extraction/application/graph_management_session_journal.py:73-79 | stripping a text loses none of its lines that are not blank |
| Text.JoinKeepsLines | src/api/extraction/application/graph_management_session_journal.py:78-78 | joining two texts by a line feed gives the lines of the one and then of the other, whatever line ends they use |
| Text.AnyBreakJoins | src/api/extraction/application/graph_management_session_journal.py:79-79 | any line boundary ends a first line, a carriage return and line feed together being one |
| Text.NoLinesMeansBlank | src/api/extraction/application/graph_management_session_journal.py:73-79 | a text has no line that is not blank if and only if it is blank |
| MutationMetrics.MetricsFromMutationJsonl | src/api/extraction/domain/mutation_jsonl_metrics.py:8-66 | each counter counts the lines holding its operation on its type, and their sum counts every write line once |
| MutationMetrics.MetricsAppend | src/api/extraction/domain/mutation_jsonl_metrics.py:8-66 | metrics of concatenated lines are the component-wise sum |
| MutationMetrics.WriteOpsCountWrites | src/api/extraction/domain/mutation_jsonl_metrics.py:50-57 | the six counters together count each write line once |
| SessionJournal.AppendAppliedKeepsLines | src/api/extraction/application/graph_management_session_journal.py:67-81 | despite stripping and re-joining the journal holds what it held and then the appended lines; the line count stays right |
| SessionJournal.AppendInstanceKeepsLines | src/api/extraction/application/graph_management_session_journal.py:84-96 | the same for instance changes |
| SessionJournal.AppendUsageAdds | src/api/extraction/application/graph_management_session_journal.py:99-113 | usage accumulates key by key |
| SessionJournal.MetricsOfJoined | src/api/extraction/application/graph_management_session_journal.py:77-80 | the metrics of joined chunks are the component-wise sum of the metrics of the chunks |
| SessionJournal.JournalConserves | src/api/extraction/application/graph_management_session_journal.py:67-113 | after any sequence of appends the journal holds each applied line and each instance change once, in order, the sum of all usage, and the time it was begun |
| SessionJournal.ArchiveRecordCorrect | src/api/extraction/application/graph_management_session_journal.py:167-216 | one row if and only if the journal holds a write; it stores the very lines, the very instance changes (none exactly if there are none), the usage and the times, under the job set of the mode, with a column for each kind of write but deletes; history counts each write line once |
| SessionJournal.ArchiveConserves | src/api/extraction/application/archived_extraction_history.py:10-19 | over whole sessions: the row stores all lines and instance changes ever appended, and all usage, and its shown write count is the number of write lines, deletes included |
| SessionJournal.ExtractionJobsShowColumns | src/api/extraction/application/archived_extraction_history.py:10-19 | the rows of extraction jobs show the sum of their four columns |
| SessionJournal.ColumnsMissDeletes | src/api/extraction/domain/extraction_job.py:141-147 | the stored columns add up to that count if and only if nothing was deleted |
| SessionJournal.UsageOfIdleSessionsIsDropped | src/api/extraction/application/graph_management_session_journal.py:174-177 | a session whose entries hold no write leaves no row, whatever usage its journal has summed up |
| SessionJournal.TurnsAreNoWrites | src/api/extraction/application/graph_management_session_journal.py:99-113 | chat turns alone hold no write |
| SessionJournal.JobIdIsInjective | src/api/extraction/application/graph_management_session_journal.py:191-191 | the job id determines the session |
| ArchivedHistory.GroupArchivedJobsByRunAndSet | src/api/extraction/application/archived_extraction_history.py:42-102 | every run group holds exactly the jobs of that run, each under its set in order, with the right counts, tokens and cost |
| ArchivedHistory.WriteOpsOfArchivedJob | src/api/extraction/application/archived_extraction_history.py:10-19 | counts the write lines stored for a session row and adds up the columns of any other |
| ArchivedHistory.GroupsPartition | src/api/extraction/application/archived_extraction_history.py:46-73 | grouping loses nothing and counts nothing twice |
| ArchivedHistory.SetTotalsAddUp | src/api/extraction/application/archived_extraction_history.py:75-90 | within a run the sets' job and write counts add up to the run's |
| ArchivedHistory.RunTotalsAddUp | src/api/extraction/application/archived_extraction_history.py:69-73 | over the history the runs' counts add up to the archived jobs and their write count |
| Sessions.EndRecordKeepsInv | src/api/extraction/application/agent_session_service.py:94-101 | ending a session keeps the invariant and archives it now; for an archived one nothing happens |
| Sessions.CreateKeepsInv | src/api/extraction/application/agent_session_service.py:135-179 | so does creating one in a scope without an active session |
| Sessions.AppendKeepsInv | src/api/extraction/application/graph_management_session_journal.py:128-165 | so does every journal append |
| Sessions.AppendAccount | src/api/extraction/application/graph_management_session_journal.py:128-165 | an append reaches an active session, and nothing but its journal; for any other session nothing happens |
| Sessions.SaveKeepsInv | src/api/extraction/application/agent_session_service.py:264-270 | so does saving a chat turn |
| Sessions.SaveAccount | src/api/extraction/application/agent_session_service.py:264-270 | saving a chat turn records its usage and sets the time of the last update and the state of the sandbox, of that session only |
| SessionRuns.ExpireEndsIdle | src/api/extraction/application/agent_session_service.py:69-82 | exactly the listed sessions whose last update is that long ago are ended, now; the others keep their rows |
| SessionRuns.NoIdleSessionSurvives | src/api/extraction/application/agent_session_service.py:69-82 | afterwards no session of the user on the graph is active past its idle time |
| SessionRuns.GetActiveCorrect | src/api/extraction/application/agent_session_service.py:181-195 | gives the session of the scope that is active, not idle, and not without its attempted sandbox, as it was; if there is none, none is left active |
| SessionRuns.StartCorrect | src/api/extraction/application/agent_session_service.py:197-217 | afterwards the returned session is the one active session of the scope: the usable one as it was, or else a new one with nothing in it |
| SessionRuns.EndCorrect | src/api/extraction/application/agent_session_service.py:219-234 | afterwards the scope has no active session; answers with the one it had unless that was idle |
| SessionRuns.ClearChatStartsOver | src/api/extraction/application/agent_session_service.py:272-287 | always leaves a new session with nothing in it as the only active one |
| SessionRuns.GetOrCreateCorrect | src/api/extraction/application/agent_session_service.py:236-262 | the usable session of the scope as it was, or else a new one |
| SessionRuns.RunKeepsInv | src/api/extraction/application/agent_session_service.py:69-338 | over every run at most one session is active per user, graph and mode, and archived sessions keep their rows for good |
| SessionRuns.LifeOfSession | src/api/extraction/application/agent_session_service.py:94-101 | the events of a session are: created, its appends, and at the end its runtime terminated and then, once, archived |
| SessionRuns.SessionIsArchivedOnce | src/api/extraction/application/graph_management_session_journal.py:167-216 | in every reachable state an ended session has exactly one row if it ever applied a write, storing all its lines, instance changes and usage and counting all its writes, and none otherwise; an active one has none |
| SessionRuns.HistoryCountsEverything | src/api/extraction/application/archived_extraction_history.py:10-19 | the write count of the whole history is the number of write lines applied in ended sessions |
| SessionService.CountLines | src/api/extraction/application/graph_management_session_journal.py:80-80 | the number of lines that are not blank |
| SessionService.ExtractionAgentSession.AppendAppliedJsonl | src/api/extraction/application/graph_management_session_journal.py:67-81 | changes the journal as specified and nothing else |
| SessionService.ExtractionAgentSession.AppendInstanceChangesJsonl | src/api/extraction/application/graph_management_session_journal.py:84-96 | the same for instance changes |
| SessionService.ExtractionAgentSession.AppendTurnUsage | src/api/extraction/application/graph_management_session_journal.py:99-113 | the same for usage |
| SessionService.ExtractionAgentSession.Archive | src/api/extraction/domain/entities/agent_session.py:31-34 | sets both times and nothing else |
| SessionService.ExtractionAgentSessionService.ArchiveSessionMutations | src/api/extraction/application/graph_management_session_journal.py:167-216 | inserts the one row the journal gives rise to, or none |
| SessionService.ExtractionAgentSessionService.EndSessionRecord | src/api/extraction/application/agent_session_service.py:94-101 | terminate, archive the journal, archive the session, save, in this order; nothing for an archived one |
| SessionService.ExtractionAgentSessionService.ExpireIdleSessions | src/api/extraction/application/agent_session_service.py:69-82 | the loop over the listing has the specified effect |
| SessionService.ExtractionAgentSessionService.ReconcileOrphanedStickySession | src/api/extraction/application/agent_session_service.py:111-133 | ends a session whose sandbox was attempted and is gone |
| SessionService.ExtractionAgentSessionService.GetActiveSession | src/api/extraction/application/agent_session_service.py:181-195 | expire, find, reconcile |
| SessionService.ExtractionAgentSessionService.StartSession | src/api/extraction/application/agent_session_service.py:197-217 | expire, find, reconcile, create if there is none |
| SessionService.ExtractionAgentSessionService.EndSession | src/api/extraction/application/agent_session_service.py:219-234 | expire, find, end |
| SessionService.ExtractionAgentSessionService.GetOrCreateActiveSession | src/api/extraction/application/agent_session_service.py:236-262 | refused exactly for a given mode that does not belong to the backend mode, before anything is done; otherwise get, or start, in the given or the default mode |
| SessionService.ExtractionAgentSessionService.SaveSession | src/api/extraction/application/agent_session_service.py:264-270 | saves a chat turn of an active session: its usage, its sandbox state and the time of the update |
| SessionService.ExtractionAgentSessionService.ClearChatHistory | src/api/extraction/application/agent_session_service.py:272-287 | end, then start |
| SessionService.ExtractionAgentSessionService.ArchiveSession | src/api/extraction/application/agent_session_service.py:332-338 | ends the session if it is there and active |
| SessionService.ExtractionAgentSessionService.AppendToJournal | src/api/extraction/application/graph_management_session_journal.py:128-165 | appends to an active session and does nothing for any other |
| Materialization.MergeAssociative | src/api/extraction/infrastructure/extraction_job_repository_files.py:41-60 | merging is associative in every field, the truncated sample included |
| Materialization.SampleAssociative | src/api/extraction/infrastructure/extraction_job_repository_files.py:44-58 | de-duplicating and truncating at each step is de-duplicating and truncating once |
| Materialization.TakeRight | src/api/extraction/infrastructure/extraction_job_repository_files.py:58-58 | truncating the right operand first loses nothing: twelve paths still come through |
| Materialization.EmptyIsUnit | src/api/extraction/infrastructure/extraction_job_repository_files.py:28-60 | the empty outcome is a unit on either side for exactly the normalised outcomes |
| Materialization.MergeNormalises | src/api/extraction/infrastructure/extraction_job_repository_files.py:41-60 | every merged outcome is normalised |
| Materialization.MergeAllSamples | src/api/extraction/infrastructure/extraction_job_repository_files.py:41-60 | merging a list one by one lists what collecting everything and de-duplicating once would, and samples the first twelve paths of that |
| Materialization.MergeAllCounts | src/api/extraction/infrastructure/extraction_job_repository_files.py:44-48 | files written and packages found add up; the largest number of packages requested is kept |
| Materialization.DedupPrefix | src/api/extraction/infrastructure/extraction_job_repository_files.py:49-59 | de-duplication keeps first occurrences: what comes later neither reorders nor drops what is there |
| Materialization.MergeAllAppends | src/api/extraction/infrastructure/extraction_job_repository_files.py:41-60 | how a list is split does not matter |
| RepositoryFiles.FirstMatch | src/api/extraction/infrastructure/extraction_job_repository_files.py:205-214 | the first request that matches a file, if any does |
| RepositoryFiles.MaterializeInstanceRepositoryPaths | src/api/extraction/infrastructure/extraction_job_repository_files.py:176-241 | files, packages, samples and undischarged requests as functions of the archives; refused exactly when a file to be written has an unsafe name |
| RepositoryFiles.MaterializePackage | src/api/extraction/infrastructure/extraction_job_repository_files.py:202-222 | the same for the entries of one archive |
| RepositoryFiles.DischargedAre | src/api/extraction/infrastructure/extraction_job_repository_files.py:205-220 | a request is discharged if and only if it is the first match of some file with content |
| RepositoryFiles.ReportedThoughMatched | src/api/extraction/infrastructure/extraction_job_repository_files.py:205-220 | a request is reported as not found if and only if every file it matches is also matched by an earlier request |
| RepositoryFiles.DirectoryTakesTheFile | src/api/extraction/infrastructure/extraction_job_repository_files.py:205-220 | with a directory and then a file in it requested, the file is written and its own request is reported as not found |
| RepositoryFiles.FilesWritten | src/api/extraction/infrastructure/extraction_job_repository_files.py:205-222 | one file per change with content that some request matches, in order, under the folder of its archive |
| RepositoryFiles.MissingAre | src/api/extraction/infrastructure/extraction_job_repository_files.py:193-199 | exactly the archives that are not on disk are reported missing |
| RepositoryFiles.CleanMatches | src/api/extraction/infrastructure/extraction_job_repository_files.py:105-116 | between paths in normal form a request matches the file itself, everything below it, files it stands at the end of after a slash, and files that stand at its own end |
| RepositoryFiles.SpellingsMatch | src/api/extraction/infrastructure/extraction_job_repository_files.py:98-102 | white space around a path, a dot and a slash or a slash before it, backslashes, and a slash after a request make no difference |
| CypherLiteral.EscapeOne | scripts/kg_data_backup.py:563-564 | the two replacements together escape each character on its own |
| CypherLiteral.StringRoundTrip | scripts/kg_data_backup.py:579-580 | quotes and backslashes inside a string never end its literal early |
| CypherLiteral.RoundTrip | scripts/kg_data_backup.py:567-580 | on nested values with identifier keys the parser consumes exactly the printed text and returns the value |
| CypherLiteral.UniquelyDecodable | scripts/kg_data_backup.py:567-580 | printed values followed by any text but a digit determine both the value and the text |
| CypherLiteral.RawKeysAreAmbiguous | scripts/kg_data_backup.py:576-578 | a key that is not an identifier can print like two entries |
| ActivityLog.SplitLogLine | src/api/extraction/infrastructure/extraction_job_activity.py:118-139 | timestamp, kind and body of a line, the markers tried in turn |
| ActivityLog.TimestampSplitOff | src/api/extraction/infrastructure/extraction_job_activity.py:120-125 | a timestamp is split off exactly if the first word begins with a digit, has a T in it, and a blank follows |
| ActivityLog.KindSplitOff | src/api/extraction/infrastructure/extraction_job_activity.py:127-139 | the kind is that of the first marker the body begins with; without a marker the body is left alone |
| ActivityLog.ParseActivityMessages | src/api/extraction/infrastructure/extraction_job_activity.py:142-160 | the messages of a log are those of its lines that are not blank, braces expanded |
| ActivityRoundTrip.AppendedReads | src/api/extraction/infrastructure/extraction_job_activity.py:42-57 | appending any text keeps all earlier messages; its first line comes back under its timestamp and kind, further lines as lines of their own |
| ActivityRoundTrip.MessageRoundTrip | src/api/extraction/infrastructure/extraction_job_activity.py:49-160 | a single-line message comes back exactly if and only if its kind is one of the six and it is not in braces, unless the agent-output reader returns it |
| ActivityRoundTrip.LogRoundTrip | src/api/extraction/infrastructure/extraction_job_activity.py:42-160 | a log of plain messages reads back as exactly those messages, in order |

## Left out

- Floating-point rounding in metrics and costs, and the rounding of grouped costs to six digits: reals stand for floats.
- How sources, node samples and node pairs are drawn: every sample is a parameter or an arbitrary choice. Averages, medians, degree distributions, orphan types, inverse edge types, modularity and the ranked top lists are not modelled.
- SQL, Cypher and the bulk loading strategy: a strategy is any function of store and batch, and the store follows the documented meaning of the operations. JSON decoding of a mutation line and of agent output is a parameter, and so is which characters are digits.
- Operations on one id with conflicting content in one batch: their order within a class is the submission order, so the result may depend on it.
- ExtractionRun.StepKeepsInv: cancellation in the middle of a transaction, liveness and timing are not modelled; a claim may take any pending job, not the first in order, or come back empty although pending rows exist, as skipped locks allow.
- Orchestrator.ExtractionRunOrchestrator.BeginCancel: testing a job for being pending and deleting it is one step; a job claimed in between is refused by the program. What stopping a job's container does to its executor is any outcome of it.
- Orchestrator.ExtractionRunOrchestrator.ReconcileQuiescent: stopping the in-memory pool after an external reconciliation is the separate step `StopPool`.
- The other tenants and graphs of the orchestrator: one knowledge graph is modelled, as its rows and pools never mix with others.
- Containers left behind by an earlier process, environment variables, mounts and hardening flags of a launch, and the ephemeral worker launchers.
- LeaseManagers.ContainerStickySessionRuntimeManager.CleanupExpired: the order of the returned container ids is not stated; it is the order of the lease dictionary.
- LeaseSimulation.RunSimulates: crashes are excluded, as the in-memory manager has no containers that could crash.
- A session saved from a stale copy, as when a chat turn saves after a journal append went past it: each append or save is one atomic step.
- SessionService.ExtractionAgentSessionService.ExpireIdleSessions: sessions are loaded one at a time from the listing of their ids instead of all at once.
- Session rows without a mode from before the mode column, services configured without a runtime manager or a journal, message histories, skills and bootstrap intake.
- The random id of an archived row, its order of insertion next to extraction jobs, and its description.
- ArchivedHistory.GroupArchivedJobsByRunAndSet: groups are keyed maps; sorting them for display is not modelled.
- RepositoryFiles.MaterializeInstanceRepositoryPaths: undischarged requests are a set, the sorted tuple and the warning text are not built. Copying file content and the other two materialising functions are not modelled.
- Floats, dates and other values in Cypher literals, and the capture and restore of a whole graph.
- The preview readers of the activity log and the rendering of agent output.
- Routes, prompts, settings, the user interface, secrets and the outbox.
