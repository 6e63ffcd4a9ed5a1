# Verified model of the DAF graph engine, wire protocol and algorithms

This project models, in Dafny, the core of the DAF repository and proves what it is for.

**Graph execution.** An execution graph is a DAG of nodes with typed, conditional edges. It
is held as an adjacency structure addressed by index (`DiGraphs`, `ExecutionGraphs`: removal
swaps the last node into the hole) and viewed by identifier (`Propagation`: readiness and
skip propagation; `EdgeRules`: what each kind and condition of an edge means for them).
`Outcomes.Final` is the meaning of an execution: one recursive function
that gives each node its final state. `Planning`, `WaveDepth`, `Schedulers`, `CriticalPaths`,
`CriticalBounds` and `BenchDags` are the wave planner, its optimality, the critical path and
the benchmark's reference algorithms; `DocumentedReadiness` compares readiness with what is
documented of it. The executor is a state machine whose runs are all interleavings of the
driver, the tasks, cancellation, the global timeout and the caller going away
(`ExecutorProtocol`, `ExecutorSteps`, `ExecutorRuns`, `ExecutorStops`, `Cancellations`;
`Scripts` says what a handler's answers make of its calls), and an object with its
wave and retry loops, each execution of which is shown to be a run of that machine
(`GraphExecutors`). The main theorems: every run that returns normally, under any completion
order, choice of waves and concurrency limit, ends in `Final` with exactly determined handler
calls; in a run that is stopped early every node that worked to its end is as `Final` says, and
what was skipped against it was skipped for a node that its own task cancelled, with the exact
condition under which no run does so; every run is finite and never deadlocks.

**Wire protocol.** `Bytes`, `Protocol` and `Codecs` are the frame format and the incremental,
resynchronising codec: printer and parser are mutual inverses, and how a stream is cut into
chunks does not matter; `WireRules` fixes the layout byte by byte and what the checksum covers. `ChannelProtocol` is the queue pair of a channel as a state machine of
senders, receivers and closers, `ChannelRuns` what calls achieve in its runs, `ChannelPools` the pool that allocates channels.

**Self-contained algorithms.** `Reachability` (paths of any relation), `Traversals`, `Iterators`
and `Subgraphs` (closures over the graph and the order in which it is walked), `Inventories`
(nested agent groups), `Roles` (dependency order), `Globs` (pattern matching), `Memories`,
`Merges`, `Ledgers`, `Consolidation` and `Duplicates` (greedy merging: which merges are made,
what becomes of the total, and of records listed twice), `Reconciliation` and `Provisioners`
(plan and apply).

Conventions: identifiers are natural numbers, durations whole ticks (`TICKS_PER_SECOND` in a
second), handlers a script that says how each call of a node's handler ends, the checksum an
unknown function of the bytes it covers, importance and similarity real numbers. A timed-out
attempt is a failed attempt. `hide` statements only keep proofs quick.

Where the code and its documentation disagree, the model follows the code:

- `subgraph` is documented to hold a node with its transitive dependencies and dependents; the
  code takes the whole connected component. `Subgraphs.SubgraphIsKinIffIsolated` says exactly
  when the two agree, `Subgraphs.SubgraphHoldsMoreThanKin` gives a graph on which they do not.
- `ready_nodes` is documented in terms of successful dependencies; the code tests each edge's
  own condition, so failure and completion edges count too.
  `DocumentedReadiness.DocumentedReadingIff` says exactly for which edges the two agree in every
  state, `DocumentedReadiness.FailureMakesReady` gives edges for which they do not.
- `mark_complete` is documented to return the newly ready nodes; the code returns all ready ones.
  `DocumentedReadiness.NewlyReadyIff` says exactly when all of them are newly ready,
  `DocumentedReadiness.ReadyNodeIsReturnedAgain` gives a call that returns another one.
- `plan_waves` simulates success from the present states, but propagates skips only after a wave;
  `Planning.PlanCoverage` says exactly when this leaves out work that would be done.
- `merge_similar_batch` is documented to merge the newer of two memories into the older one; a
  record that the batch lists twice is merged into itself and then deleted.
  `Duplicates.RepeatedRecordsAreLostIff` says exactly when, `Duplicates.ListedTwiceIsLost` gives
  a batch.
- `proto/README.md` describes another wire layout; the model has the 21-byte big-endian header.

## Model

| member | source | states |
|---|---|---|
| `Propagation.SkipSetIsLeastClosed` | crates/daf-graph/src/dag.rs:261-291 | skip propagation skips the least set of pending nodes closed under "some finished predecessor cannot satisfy its edge" |
| `Propagation.SkipAllIsFixpoint` | crates/daf-graph/src/dag.rs:261-291 | propagation changes pending nodes only, to skipped, and leaves no pending node with a refused edge |
| `Propagation.SkipAllIsIdempotent` | crates/daf-graph/src/dag.rs:261-291 | propagating twice is propagating once |
| `Propagation.VisitingOrderIsIrrelevant` | crates/daf-graph/src/dag.rs:263-290 | skipping nodes one at a time, in any order that ends with none impossible, gives the same states |
| `Propagation.AlwaysOnlyIsNeverSkipped` | crates/daf-graph/src/dag.rs:225-234 | a node with only `Always` edges coming in is never skipped |
| `EdgeRules.SingleEdgeRule` | crates/daf-graph/src/dag.rs:208-291 | for every kind and condition of an edge and every state of its source: a pending node behind just that edge is ready, or is skipped, or waits, as the edge's own condition or the default of its kind says |
| `EdgeRules.ReadyIff` | crates/daf-graph/src/dag.rs:208-234 | a node is ready exactly when it is pending and every edge into it lets it go on, by the edge's kind and condition and the state of its source |
| `EdgeRules.SkippedIff` | crates/daf-graph/src/dag.rs:261-291 | propagation skips a pending node exactly when some edge into it does not let it go on though its source has ended, perhaps by being skipped itself |
| `Outcomes.QuiescentIsFinal` | crates/daf-graph/src/executor.rs:331-341 | where nothing is ready and nothing can be skipped, each node is in the state the recursive meaning gives it |
| `Outcomes.CompletionAgrees` | crates/daf-graph/src/dag.rs:239-259 | ending an admitted node as its work ends, and propagating skips, keeps all finished nodes as the meaning says |
| `Outcomes.AllFinishIffCleanStart` | crates/daf-graph/src/executor.rs:331-341 | every node finishes exactly when none starts ready or running |
| `Outcomes.FinalFromPendingStart` | crates/daf-graph/src/executor.rs:331-341 | from an all-pending start a node ends as its work does if all its edges are satisfied by final states, else skipped |
| `Outcomes.RankIsIrrelevant` | crates/daf-graph/src/dag.rs:199-202 | the meaning does not depend on the topological order used to compute it |
| `Outcomes.AdmissionIsStable` | crates/daf-graph/src/dag.rs:208-234 | once all edges into a node are satisfied they stay satisfied while finished nodes keep their states |
| `Topology.RankExistsIffAcyclic` | crates/daf-graph/src/dag.rs:199-202 | a topological rank exists exactly when there is no cycle |
| `Kahn.TopologicalSort` | benchmarks/benches/graph_execution.rs:77-99 | Kahn's loop lists each node once after its sources, and lists all exactly when the graph is acyclic |
| `Kahn.OrderIsRank` | crates/daf-graph/src/dag.rs:199-202 | positions in a complete topological order increase along every edge |
| `DiGraphs.RemoveNode` | crates/daf-graph/src/dag.rs:159-163 | removing a node drops exactly its arcs, one by one with swapping, and moves the last node into its place with its arcs renamed |
| `DiGraphs.SwapRemoveContents` | crates/daf-graph/src/dag.rs:159-163 | swap-removal takes out exactly the one element |
| `DiGraphs.ReadyByIndex` | crates/daf-graph/src/dag.rs:208-222 | the test on indices and arcs is readiness in terms of identifiers and edges |
| `DiGraphs.ImpossibleByIndex` | crates/daf-graph/src/dag.rs:263-279 | the test on indices and arcs is impossibility in terms of identifiers and edges |
| `ExecutionGraphs.ExecutionGraph.AddNode` | crates/daf-graph/src/dag.rs:98-109 | a new node is registered under its identifier; a repeated identifier changes nothing; the representation invariant holds |
| `ExecutionGraphs.ExecutionGraph.AddEdge` | crates/daf-graph/src/dag.rs:115-140 | fails, changing nothing, exactly for an unknown endpoint or an edge that would close a cycle; otherwise appends it and records the dependency |
| `ExecutionGraphs.ExecutionGraph.RemoveNode` | crates/daf-graph/src/dag.rs:145-175 | returns the node and takes out it, its edges and its mention among dependencies; the index table stays the exact bijection |
| `ExecutionGraphs.RemovedLookup` | crates/daf-graph/src/dag.rs:159-171 | after the swap and the index fix-up every other identifier finds its own node |
| `ExecutionGraphs.ExecutionGraph.ReadyNodes` | crates/daf-graph/src/dag.rs:208-234 | lists, once each, exactly the pending nodes into which every edge, by its kind and condition and the state of its source, lets them go on |
| `ExecutionGraphs.ExecutionGraph.MarkComplete` | crates/daf-graph/src/dag.rs:239-291 | the node has the given state and duration; of the others exactly the pending ones with an edge from an ended source that does not let them go on are skipped, nothing else changes; and all ready nodes are returned |
| `ExecutionGraphs.ExecutionGraph.SkipImpossibleNodes` | crates/daf-graph/src/dag.rs:263-291 | the loop over rounds computes the propagation fixpoint |
| `ExecutionGraphs.PropagateSkips` | crates/daf-graph/src/dag.rs:263-291 | each round skips all impossible nodes at once; the loop ends at the fixpoint and keeps the invariant |
| `ExecutionGraphs.IsCyclicDirected` | crates/daf-graph/src/dag.rs:129-132 | decides whether the edges have a cycle |
| `DocumentedReadiness.NewlyReadyIff` | crates/daf-graph/src/dag.rs:236-259 | ending a node in any state returns newly ready nodes only, exactly when no node was ready before whose edges from the ended node, if any, are satisfied by its state |
| `DocumentedReadiness.NewlyReadyIffNoOtherReady` | crates/daf-graph/src/dag.rs:236-259 | for an unfinished node that finishes: exactly when no other node was ready |
| `DocumentedReadiness.ReadyNodeIsReturnedAgain` | crates/daf-graph/src/dag.rs:236-259 | two nodes without an edge: completing one returns the other, which was ready before |
| `DocumentedReadiness.DocumentedReadingIff` | crates/daf-graph/src/dag.rs:204-234 | "ready iff pending with all sources succeeded" holds in every state exactly when success satisfies each edge into the node and each source has an edge there that only success satisfies (or the node is linked to itself) |
| `DocumentedReadiness.FailureMakesReady` | crates/daf-graph/src/dag.rs:204-234 | a node behind a failed one by a failure edge, or by a completion edge, is ready |
| `GraphWires.FromWire` | crates/daf-graph/src/dag.rs:59-74 | loading succeeds exactly on wire forms without repeated nodes, dangling edges or cycles, and rebuilds nodes and edges in order |
| `GraphWires.WireRoundTrip` | crates/daf-graph/src/dag.rs:48-74 | the wire form of a sound graph is loadable, and what loading it promises determines the same graph, indices included |
| `GraphWires.Reload` | crates/daf-graph/src/dag.rs:48-74 | storing and loading a graph gives an equal graph |
| `Ordering.SortReadyOrders` | crates/daf-graph/src/scheduler.rs:124-133 | ready nodes are taken by falling priority, then name, none lost or repeated |
| `Ordering.SortReadyIsStable` | crates/daf-graph/src/scheduler.rs:124-133 | nodes of equal priority and name keep their order |
| `Ordering.NamesAreLexicographic` | crates/daf-graph/src/scheduler.rs:124-133 | names are compared at the first place where they differ, a prefix coming first |
| `Planning.NextWaveIsWave` | crates/daf-graph/src/scheduler.rs:117-138 | a wave is ready nodes, none twice, within the limit, and empty only when nothing is ready |
| `Planning.NextWaveTakesFirst` | crates/daf-graph/src/scheduler.rs:117-138 | within a wave priorities do not rise and equal ones are in the order of names; a ready node is left out only when the limit is reached, and comes after all that are taken |
| `Planning.PlanTakesFirst` | crates/daf-graph/src/scheduler.rs:117-168 | every wave of a plan so takes the first of the nodes that are ready in the states after the waves before it |
| `Planning.AfterWaveCompletes` | crates/daf-graph/src/scheduler.rs:156-159 | simulating a wave makes its nodes succeed, keeps finished nodes, and only skips others |
| `Planning.PlanHoldsPendingOnce` | crates/daf-graph/src/scheduler.rs:117-168 | waves are disjoint, nonempty, hold formerly pending nodes, respect the limit, and are no more than the pending nodes |
| `Planning.PlanRespectsEdges` | crates/daf-graph/src/scheduler.rs:117-168 | every edge between planned nodes goes to a strictly later wave |
| `Planning.PlanCoverage` | crates/daf-graph/src/scheduler.rs:117-168 | under any positive limit the plan holds exactly the pending nodes that succeed when all work succeeds, if and only if some node is ready at first or propagating skips makes none ready |
| `Planning.UnpropagatedSkipHidesWork` | crates/daf-graph/src/scheduler.rs:117-168 | a failed node, its dependent and a node behind that by an `Always` edge: nothing is ready, though the last one would be once the skip is propagated |
| `Planning.PlanCoversAll` | crates/daf-graph/src/scheduler.rs:117-168 | when all start pending and success satisfies every edge, all nodes are planned |
| `WaveDepth.DepthIsLongestChain` | benchmarks/benches/graph_execution.rs:107-115 | the depth recurrence gives the length of the longest chain of predecessors |
| `WaveDepth.UnlimitedPlanIsOptimal` | crates/daf-graph/src/scheduler.rs:117-168 | without a limit each node is in the wave numbered by its longest chain of predecessors, and there are no more waves than that needs |
| `WaveDepth.OptimalWavesAgree` | crates/daf-graph/src/scheduler.rs:117-168 | two optimal plans of one graph have the same waves |
| `Schedulers.WaveScheduler.PlanWaves` | crates/daf-graph/src/scheduler.rs:97-182 | an error exactly for limit zero; otherwise the numbered waves of the plan with their durations and their sum, the graph untouched; every wave has the ready nodes of highest priority, then lowest name, in that order, as many as the limit admits; the safety valve never cuts the plan |
| `Schedulers.WaveScheduler.PlanWave` | crates/daf-graph/src/scheduler.rs:117-168 | one turn of the loop adds the next wave of the plan and uses up pending nodes |
| `Schedulers.CompleteWave` | crates/daf-graph/src/scheduler.rs:156-159 | completing a wave in the simulation gives the planner's next states and changes no other attribute |
| `Schedulers.MaxEstimate` | crates/daf-graph/src/scheduler.rs:140-145 | the greatest estimate among the nodes that have one |
| `CriticalPaths.CriticalPath` | crates/daf-graph/src/dag.rs:297-346 | an error exactly on a cycle; otherwise a real path whose duration is the maximum over all paths |
| `CriticalPaths.CriticalPathOf` | crates/daf-graph/src/dag.rs:297-346 | on a graph object the cycle error never occurs; the result is a real path of greatest duration |
| `CriticalPaths.DurationsAdd` | crates/daf-graph/src/dag.rs:308-331 | the duration of a path is that of its parts, of a single node its estimate, or a second without one |
| `CriticalPaths.RelaxedOneMore` | crates/daf-graph/src/dag.rs:308-331 | relaxing a node after all its sources finds the longest walk that ends there |
| `CriticalPaths.TraceBack` | crates/daf-graph/src/dag.rs:333-343 | following predecessors back and reversing gives the recorded walk |
| `CriticalBounds.BoundHoldsIffEstimatesSuffice` | crates/daf-graph/src/scheduler.rs:139-170 | waves that hold every node once bound every walk of every edge list they respect, exactly when each wave that mixes nodes with and without estimates has an estimate of at least a second |
| `CriticalBounds.PlanBoundsIffEstimatesSuffice` | crates/daf-graph/src/scheduler.rs:117-170 | the same for every plan, under any limit, that holds all nodes |
| `CriticalBounds.CriticalPathWithinPlan` | crates/daf-graph/src/scheduler.rs:139-170 | with every node planned and sufficient estimates, no walk of the graph, so not the critical path, lasts longer than the plan, for any limit |
| `CriticalBounds.CriticalPathWithinUniformPlan` | crates/daf-graph/src/scheduler.rs:139-170 | with every node planned and estimates on all nodes or on none, likewise |
| `CriticalBounds.MissingEstimateExceedsPlan` | crates/daf-graph/src/scheduler.rs:140-145 | a concrete plan shorter than its critical path: a node estimated at one tick next to one without an estimate |
| `BenchDags.PlanWaves` | benchmarks/benches/graph_execution.rs:103-124 | the depth partition is optimal on a nonempty graph; an empty graph gets one empty wave |
| `BenchDags.CriticalPathLength` | benchmarks/benches/graph_execution.rs:127-141 | the number of nodes on the longest path |
| `BenchDags.LibraryPlanMatchesBenchmark` | benchmarks/benches/graph_execution.rs:103-141 | the library's unlimited plan has the benchmark's waves, as many as the longest path has nodes |
| `ExecutorProtocol.Config.CallsFrom` | crates/daf-graph/src/executor.rs:440-468 | a node's work takes at least one and at most its retries plus one calls |
| `Scripts.ScriptDecides` | crates/daf-graph/src/executor.rs:440-465 | the first attempt that does not fail, within the retries, is the last call and decides how the node ends; without one there is one call more than retries and the node fails |
| `ExecutorSteps.StepKeeps` | crates/daf-graph/src/executor.rs:241-552 | every step of driver, tasks and environment keeps the executor's invariant |
| `ExecutorSteps.FinishKeeps` | crates/daf-graph/src/executor.rs:472-491 | recording the end of a task under the lock keeps the invariant whatever the other tasks are doing |
| `ExecutorSteps.LeavingIsComplete` | crates/daf-graph/src/executor.rs:331-341 | when no wave is left and nothing was cancelled, states and call counts are the final ones |
| `ExecutorRuns.CompletedRunIsFinal` | crates/daf-graph/src/executor.rs:329-536 | every run that returns normally ends in the recursive meaning of the graph with exactly the calls the work takes |
| `ExecutorRuns.CompletedRunFromPending` | crates/daf-graph/src/executor.rs:329-536 | from an all-pending start: a node ended as its work does if the final states satisfy all its edges, else it was skipped |
| `ExecutorRuns.ScheduleIndependence` | crates/daf-graph/src/executor.rs:329-536 | two normal runs of one graph and work, under any limits and schedules, end with equal states and calls |
| `ExecutorRuns.RunsAreSafe` | crates/daf-graph/src/executor.rs:371-528 | in every run: handlers only for admitted nodes, finished states never change, skipped nodes never called, calls at most retries plus one, running nodes within the limit |
| `ExecutorRuns.NoDeadlock` | crates/daf-graph/src/executor.rs:329-536 | until a run is over the executor itself can take a step |
| `ExecutorRuns.StepsLowerMeasure` | crates/daf-graph/src/executor.rs:329-536 | every step lowers a lexicographic measure |
| `ExecutorRuns.EveryRunStops` | crates/daf-graph/src/executor.rs:329-536 | no run goes on forever |
| `ExecutorRuns.UndisturbedRunFinishes` | crates/daf-graph/src/executor.rs:241-290 | a run over without cancellation, timeout or caller drop, with a positive limit and no output edges, returned normally |
| `ExecutorRuns.NormalRunExists` | crates/daf-graph/src/executor.rs:241-290 | every acyclic graph without output conditions has, under any positive limit, a run that returns normally |
| `ExecutorRuns.ReportedProgress` | crates/daf-graph/src/executor.rs:541-552 | reported progress counts all nodes as completed exactly on a clean start, the nodes that ended failed and those that ended skipped, and the waves that ended in the run, at most one per pending node |
| `ExecutorRuns.EndedRunsLeaveNothingOpen` | crates/daf-graph/src/executor.rs:246-290 | however a run ends no node is left unfinished and no task running, but for output edges, refused with nothing changed, and a dropped caller, whose tasks are only aborted |
| `ExecutorRuns.StopsAreJustified` | crates/daf-graph/src/executor.rs:270-283 | a run stops early only for a cause that occurred |
| `ExecutorStops.EndedRunIsExplained` | crates/daf-graph/src/executor.rs:270-290 | in every run that ends: a node that succeeded or failed is as the meaning says with exactly the calls its work takes; a skipped one is so, or was skipped, along edges not satisfied by the cancellation and the skips, for a node that its own task cancelled and that would otherwise have ended by its work; without a cancellation of the token each node is as the meaning says or cancelled |
| `ExecutorStops.StepExplained` | crates/daf-graph/src/executor.rs:329-536 | every step keeps these explanations |
| `ExecutorStops.CancellationSkipsADependent` | crates/daf-graph/src/executor.rs:444-488 | a run in which cancelling the token during a wave skips a dependent that would have succeeded |
| `Cancellations.NoRunIsDistortedIff` | crates/daf-graph/src/executor.rs:241-552 | every run that ends, however it is stopped, leaves each node as the meaning says or cancelled, if and only if each edge that a cancellation does not satisfy, from a node that would end by its work to one that starts pending, goes to a node whose meaning is skipped, or nothing is ever begun: the limit is zero or there are output edges |
| `Cancellations.ShelteredIsUndistorted` | crates/daf-graph/src/executor.rs:270-290 | the first half for one run, under any limit |
| `Cancellations.DistortedRun` | crates/daf-graph/src/executor.rs:444-488 | for each edge that breaks the condition there is a run, carried on from the middle of a call of its source, that leaves its target skipped against the meaning |
| `Cancellations.CancellationEndsCalls` | crates/daf-graph/src/executor.rs:440-465 | once the token is cancelled a handler is called only by a task that had already looked at the token, and only once more |
| `GraphExecutors.GraphExecutor.Execute` | crates/daf-graph/src/executor.rs:241-290 | every execution is a run of the protocol and reports its ending: a graph with an edge on output, and no other, is refused untouched; a normal return leaves final states and counts them; an early stop, for a cause that occurred, leaves every node as the explained runs do; however it ends, each node's handler is called as its task's retries and the script say, in order and within the limit |
| `GraphExecutors.ReturnByFields` | crates/daf-graph/src/executor.rs:404-491 | in the fields of nodes and edges: calls never exceed the task's retries plus one, none are made where the node was not pending or was skipped, and a node that worked has the calls and the end its script gives; after a normal return on a clean start a pending node was skipped exactly when some edge does not let it go on, given how its source ended, and else worked |
| `GraphExecutors.RunIsOrderly` | crates/daf-graph/src/executor.rs:371-491 | in the fields of nodes and edges: at all times no more nodes are at work than the limit admits, and no handler is called before every edge into its node lets it go on |
| `GraphExecutors.GraphExecutor.ExecuteWaves` | crates/daf-graph/src/executor.rs:329-536 | the replanning loop takes the protocol from planning to leaving, counting its waves, unless it is stopped |
| `GraphExecutors.GraphExecutor.RunWave` | crates/daf-graph/src/executor.rs:430-527 | the tasks of a wave, taken up and joined in any order, a panic recorded only when joined, are steps of the protocol that leave no task, unless the wave is stopped from outside |
| `GraphExecutors.GraphExecutor.RunTask` | crates/daf-graph/src/executor.rs:430-491 | a task from its permit to its recorded end or its panic is a sequence of steps of the protocol |
| `GraphExecutors.GraphExecutor.RunAttempts` | crates/daf-graph/src/executor.rs:440-468 | the retry loop, which looks at the token before a call and during it, is a sequence of steps of the protocol that ends as script and token decide |
| `GraphExecutors.GraphExecutor.CancelRemainingNodes` | crates/daf-graph/src/executor.rs:558-570 | exactly the unfinished nodes become cancelled |
| `GraphExecutors.GraphExecutor.CurrentProgress` | crates/daf-graph/src/executor.rs:193-222 | the counters are the numbers of nodes in the respective states |
| `GraphExecutors.GraphExecutor.Conclude` | crates/daf-graph/src/executor.rs:472-491 | recording an end, unless the node was cancelled meanwhile, is the protocol's step |
| `GraphExecutors.GraphExecutor.JoinTask` | crates/daf-graph/src/executor.rs:499-527 | joining a task, which only now records a panic as a failure, is the protocol's step |
| `GraphExecutors.RunDelivers` | crates/daf-graph/src/executor.rs:241-290 | every ended run without caller drop delivers what `Execute` promises; undisturbed and under a positive limit it returns normally |
| `Traversals.Ancestors` | crates/daf-graph/src/walker.rs:140-162 | exactly the nodes with a walk to the given one; none for an unknown node |
| `Traversals.Descendants` | crates/daf-graph/src/walker.rs:168-190 | exactly the nodes with a walk from the given one, so dual to the ancestors |
| `Traversals.Closure` | crates/daf-graph/src/walker.rs:147-159 | the worklist loop visits exactly the reachable nodes |
| `Traversals.PrecedesIsStrictOrder` | crates/daf-graph/src/walker.rs:140-190 | being an ancestor is irreflexive and transitive on a DAG |
| `Iterators.BreadthFirst.Next` | crates/daf-graph/src/walker.rs:114-131 | yields each node reachable from the roots exactly once, in the order of distance from the roots, and then ends |
| `Iterators.HeadIsNearest` | crates/daf-graph/src/walker.rs:76-131 | no node yielded before is farther from the roots than the head of the queue, over all paths |
| `Iterators.DepthFirst.Next` | crates/daf-graph/src/walker.rs:52-74 | whatever order a node's neighbours are listed in: yields each node reachable from the roots exactly once, in the depth-first order for that listing, and then ends |
| `Iterators.NewestFirstLists` | crates/daf-graph/src/walker.rs:60-69 | listing the neighbours by the newest edge first is one of the listings the depth-first iterator may be given |
| `Iterators.PreorderSplits` | crates/daf-graph/src/walker.rs:18-22 | depth-first order is that of the recursive search: all that a node newly leads to comes before what follows it |
| `Iterators.DropVisited` | crates/daf-graph/src/walker.rs:62-69 | leaving out successors already visited when they would be pushed does not change the order |
| `Subgraphs.Subgraph` | crates/daf-graph/src/dag.rs:350-404 | the connected component of the root, its nodes unchanged, with exactly its edges; an error exactly for an unknown root |
| `Subgraphs.SubgraphIsKinIffIsolated` | crates/daf-graph/src/dag.rs:348-350 | the component is what the documentation promises exactly when no edge joins that to another node |
| `Subgraphs.SubgraphHoldsMoreThanKin` | crates/daf-graph/src/dag.rs:348-373 | a graph whose extracted subgraph holds a node that is neither dependency nor dependent |
| `Inventories.ResolveGroupMembers` | crates/daf-configure/src/inventory.rs:153-158 | exactly the members of all groups reachable through children, also in cycles; none for an unknown group |
| `Inventories.ResolveGroupRecursive` | crates/daf-configure/src/inventory.rs:160-178 | a visit adds reachable groups only, with their members, and leaves no child of them unvisited; it terminates on cycles |
| `Protocol.FrameType.FromByte` | crates/daf-ddal/src/protocol.rs:124-138 | decoding a type byte inverts its code, and knows no other byte |
| `Protocol.Frame.New` | crates/daf-ddal/src/protocol.rs:202-215 | a new frame has the current version, the given fields and its own checksum, and its payload's length exactly below 32 bits |
| `Protocol.EncodeToBytes` | crates/daf-ddal/src/protocol.rs:265-292 | writing field by field gives the wire layout |
| `Protocol.DecodeFromBytes` | crates/daf-ddal/src/protocol.rs:303-370 | reading field by field is parsing: errors in the header consume nothing, a checksum error consumes the frame |
| `Protocol.ValidateHeader` | crates/daf-ddal/src/protocol.rs:376-402 | accepts exactly the magic, a compatible version, a known type and an admissible length |
| `Protocol.EncodedReadsBack` | crates/daf-ddal/src/protocol.rs:265-370 | an encoded well-formed frame reads back as itself, whatever follows |
| `Protocol.ReadFrameEncodesBack` | crates/daf-ddal/src/protocol.rs:265-370 | a frame read from bytes encodes to exactly those bytes |
| `Protocol.ParseIsInverse` | crates/daf-ddal/src/protocol.rs:265-370 | parsing yields a frame exactly on the encoding of a well-formed frame with its checksum |
| `WireRules.WireLayout` | crates/daf-ddal/src/protocol.rs:265-292 | where each field of a frame is on the wire, words big-endian, with the code of each frame type |
| `WireRules.HeaderIsAcceptedIff` | crates/daf-ddal/src/protocol.rs:376-402 | by its bytes: a header is accepted exactly with the magic, version 0.0 or 0.1, a type from 1 to 10 and at most 16 MiB declared |
| `WireRules.HeaderErrors` | crates/daf-ddal/src/protocol.rs:376-402 | otherwise the error names the first of magic, version, type and length that does not fit |
| `WireRules.ParseOutcomes` | crates/daf-ddal/src/protocol.rs:303-370 | on any bytes: when parsing waits, when it reports an error, and what it consumes in each case |
| `WireRules.ChecksumCoversIff` | crates/daf-ddal/src/protocol.rs:229-251 | some hash gives two frames different checksums exactly when they differ in version, type, stream, declared length, flags or payload |
| `WireRules.ChangedByteIsDetected` | crates/daf-ddal/src/protocol.rs:303-370 | for one changed payload byte of an encoded frame some hash accepts the frame as sent and reports a checksum mismatch on what arrived |
| `Bytes.WordRoundTrip` | crates/daf-ddal/src/protocol.rs:265-292 | a big-endian word reads back |
| `Bytes.BytesRoundTrip` | crates/daf-ddal/src/protocol.rs:303-370 | four bytes are written back |
| `Codecs.Codec.AlignToMagic` | crates/daf-ddal/src/codec.rs:73-85 | the loop aligns the buffer and says whether the magic was found |
| `Codecs.AlignKeepsFirstMagic` | crates/daf-ddal/src/codec.rs:73-85 | alignment discards exactly the bytes before the first magic, or all but the last three |
| `Codecs.Codec.DecodeNext` | crates/daf-ddal/src/codec.rs:105-150 | result and remaining bytes are those of the decoding function |
| `Codecs.Codec.Encode` | crates/daf-ddal/src/codec.rs:159-187 | appends the encoding of exactly the acceptable frames; a refused frame leaves the destination unchanged, with the first applicable error |
| `Codecs.ChunkingIsInvisible` | crates/daf-ddal/src/codec.rs:105-150 | any two splits of a byte stream, drained after every piece, give the same frames, error and remaining bytes as draining it whole |
| `Codecs.DecodeMore` | crates/daf-ddal/src/codec.rs:105-150 | a frame or an error is final; when more bytes are wanted decoding goes on from the remaining ones |
| `Codecs.Codec.DrainChunks` | crates/daf-ddal/src/codec.rs:105-150 | a reader that drains after every chunk computes the stream's drained frames |
| `Codecs.DecodeIsInverse` | crates/daf-ddal/src/codec.rs:105-187 | decoding yields a frame exactly when the aligned bytes start with the encoding of a frame the codec would send |
| `Codecs.EncodeThenDecode` | crates/daf-ddal/src/codec.rs:105-187 | every accepted frame decodes to itself and leaves what follows |
| `Codecs.GarbageIsSkipped` | crates/daf-ddal/src/codec.rs:73-85 | garbage without the magic is skipped exactly, since the magic overlaps no shifted copy of itself |
| `Codecs.NoisyStreamIsRead` | crates/daf-ddal/src/codec.rs:73-150 | frames with magic-free garbage between them, in any chunks, are read exactly and in order |
| `WireRules.DecodeOutcomes` | crates/daf-ddal/src/codec.rs:105-150 | on bytes that start with the magic: when decoding reports a header or a frame above the limit, when it waits, and what it consumes |
| `WireRules.EncodeOutcomes` | crates/daf-ddal/src/codec.rs:159-187 | a frame is refused for the first of version, size, declared length and checksum that does not fit, and for nothing else |
| `WireRules.NewFrameTravelsIff` | crates/daf-ddal/src/protocol.rs:202-215 | a new frame is accepted for sending exactly when its payload is within both limits, and the other side then decodes just it |
| `ChannelProtocol.StepKeeps` | crates/daf-ddal/src/channel.rs:228-269 | every step of senders, receivers and closers keeps the queues' invariant |
| `ChannelProtocol.QueuesConserveFrames` | crates/daf-ddal/src/channel.rs:228-257 | in every run: queued frames and permits within capacity, received frames a prefix of those sent and with the queue all of them, each successful send sent exactly once |
| `ChannelProtocol.SilenceAfterClose` | crates/daf-ddal/src/channel.rs:245-269 | once a close has returned nothing is ever enqueued again |
| `ChannelProtocol.ClosedIsSilent` | crates/daf-ddal/src/channel.rs:245-269 | after a close has returned no thread is past its check, and a send that begins is refused |
| `ChannelProtocol.NoDeadlock` | crates/daf-ddal/src/channel.rs:228-269 | a send or close, or the holder of its lock, can go on, unless a sender waits on a full open queue |
| `ChannelRuns.RefusalHasCause` | crates/daf-ddal/src/channel.rs:228-257 | in every run a send is refused only after its caller abandoned it, a close was begun, or a receiver was dropped |
| `ChannelRuns.NoneIsRefused` | crates/daf-ddal/src/channel.rs:228-257 | in a run without these no send is ever refused |
| `ChannelRuns.SendGoesThrough` | crates/daf-ddal/src/channel.rs:228-257 | from every reachable state with the queue open and received, a free slot, a free lock and the token uncancelled, an idle thread can send by steps of its own; its frame is then the last one sent and queued, and nothing else has changed |
| `ChannelRuns.CancellationEndsSends` | crates/daf-ddal/src/channel.rs:245-269 | once the token is cancelled, as a close does first, a frame is sent only by a thread that had passed its check before |
| `ChannelRuns.AllFramesArrive` | crates/daf-ddal/src/channel.rs:164-171 | from every reachable state a receiver that is there can, by receiving alone, come to have all frames sent, in order |
| `ChannelRuns.CloseReturns` | crates/daf-ddal/src/channel.rs:259-269 | with both locks free an idle thread can close by steps of its own; the token is then cancelled, both queues are closed for sends, and queued frames stay |
| `ChannelPools.ChannelPool.Open` | crates/daf-ddal/src/channel.rs:345-398 | a fresh identifier, never zero or reused, unless the limit is reached or identifiers are used up, which changes nothing; the tables agree; the channel refuses data, as it is still opening, and accepts control frames |
| `ChannelPools.ChannelPool.WriterForStream` | crates/daf-ddal/src/channel.rs:404-408 | the writer of exactly the active channels |
| `ChannelPools.ChannelPool.TakeOutboundReceiver` | crates/daf-ddal/src/channel.rs:411-415 | hands out a receiver once |
| `ChannelPools.ChannelPool.Close` | crates/daf-ddal/src/channel.rs:420-434 | closes the queues of exactly the given active channel and removes it from all tables |
| `ChannelPools.ChannelPool.Drop` | crates/daf-ddal/src/channel.rs:466-472 | closes the queues of every channel |
| `Roles.ResolveDependencyOrder` | crates/daf-configure/src/role.rs:292-312 | success lists each role and reachable name once, each role, the last of its name, after everything in its list of dependencies; failure names a role on a cycle, exactly when there is a cycle |
| `Roles.VisitRole` | crates/daf-configure/src/role.rs:314-341 | a visit extends the order by reachable names, or meets a name on the stack, which closes a cycle; it terminates |
| `Roles.OrderExcludesCycle` | crates/daf-configure/src/role.rs:292-341 | a complete dependency order is impossible with a cycle |
| `Globs.GlobMatch` | crates/daf-configure/src/playbook.rs:84-129 | the greedy matcher accepts exactly the texts that match the pattern character by character |
| `Globs.MatchesIffMadeOf` | crates/daf-configure/src/playbook.rs:84-93 | a text matches exactly when it is made of the pattern's literal parts in order with any text between |
| `Globs.EndsAsIsOrder` | crates/daf-configure/src/playbook.rs:107-126 | taking the suffix first leaves exactly the texts in which the middle parts occur in order |
| `Globs.LeftmostIsBest` | crates/daf-configure/src/playbook.rs:117-126 | the leftmost occurrence of a part is as good as any |
| `Memories.Similarity` | crates/daf-memory/src/consolidation.rs:387-409 | the shared words as a part of all words: times the size of the union it is the size of the intersection; one exactly for equal and zero exactly for unequal disjoint word sets |
| `Memories.MergeableByFields` | crates/daf-memory/src/consolidation.rs:237-253 | mergeable records have one owner, one conversation, the same provenance tags as often, and share enough words for the threshold; with equal tags, or none that names a provenance, this suffices |
| `Memories.MergeKeepsTotalIff` | crates/daf-memory/src/consolidation.rs:255-276 | one merge keeps the total access count exactly when the two stored counts fit one counter and the merged copy has the stored count, or more than that where the stored counts fill the counter |
| `Memories.MergeConserves` | crates/daf-memory/src/consolidation.rs:255-276 | one merge of an up-to-date record conserves accesses short of saturation, tags and greatest importance |
| `Merges.MergesConserve` | crates/daf-memory/src/consolidation.rs:255-283 | merges of up-to-date records, each taken once and no keeper taken, conserve accesses short of saturation, tags and greatest importance |
| `Merges.GroupIsDone` | crates/daf-memory/src/consolidation.rs:225-286 | after the merges of a group no two left records are mergeable, and each one that has gone has an earlier one left that it was mergeable into |
| `Merges.MergesCommute` | crates/daf-memory/src/consolidation.rs:255-279 | merges that name different records may be made in either order |
| `Ledgers.KeeperCount` | crates/daf-memory/src/consolidation.rs:255-260 | a keeper ends with the accesses it had and all it received, cut off once at the counter's limit |
| `Ledgers.Accounts` | crates/daf-memory/src/consolidation.rs:255-283 | the accesses in the store after merges of any age: those of the taken records go, what the batch has for them comes, less what exceeds the keepers' counters |
| `Consolidation.TotalIsKeptIff` | crates/daf-memory/src/consolidation.rs:208-289 | which records are merged away follows from threshold, batch and stored identifiers; merging a batch of any age that lists no record twice keeps the total access count if and only if the batch has as many accesses for these as the store has, together with what exceeds the keepers' counters, which is nothing where all accesses fit one counter |
| `Consolidation.BatchIsDone` | crates/daf-memory/src/consolidation.rs:208-289 | for a batch that lists no record twice: no two left records of a kind are mergeable, and each one that has gone has an older one left that it was mergeable into |
| `Consolidation.OnlyAlikeAreMerged` | crates/daf-memory/src/consolidation.rs:213-253 | whatever a batch lists: every merge is of a record of the batch into one of the batch that is not younger, of the same kind, owner, conversation and provenance, with which it shares enough words |
| `Consolidation.AnyOrderConsolidates` | crates/daf-memory/src/consolidation.rs:213-219 | whatever order the hash map gives the kinds in, the same becomes of the store, unless a record is listed with two kinds |
| `Memories.OutdatedCopyLosesAccesses` | crates/daf-memory/src/consolidation.rs:255-276 | a concrete store and an outdated copy whose merge loses accesses |
| `Consolidation.Consolidator.MergeSimilarBatch` | crates/daf-memory/src/consolidation.rs:208-289 | for every batch: the store becomes what the merges computed from threshold, batch and stored identifiers, kind after kind, make of it, as many as are counted; other records are untouched; the order of kinds does not matter unless a record is listed with two; no two left records of a kind are mergeable and each removed one has an older one left, if none is listed twice; only records of one kind, owner, conversation and provenance are merged, into the one that is not younger; if the store has the records as they are in the batch, accesses, tags and importance are conserved |
| `Consolidation.Consolidator.MergeGroup` | crates/daf-memory/src/consolidation.rs:219-286 | for every list of records: the store becomes what the greedy merges of the list, given what was merged before, make of it, and the merged identifiers are those taken |
| `Consolidation.Consolidator.MergeLater` | crates/daf-memory/src/consolidation.rs:229-285 | the inner loop makes the merges into one record, as long as the store has it |
| `Duplicates.RepeatedRecordsAreLostIff` | crates/daf-memory/src/consolidation.rs:225-279 | a batch that is a snapshot but lists records repeatedly, threshold at most one: a repeated record is merged into itself and lost if and only if the store has it and no older record takes it; all other merges are those of the batch with each record once, from a store without the repeated ones, and the store ends as if the lost records had been deleted first |
| `Duplicates.NothingIsThatSimilar` | crates/daf-memory/src/consolidation.rs:250-253 | above a threshold of one nothing is merged or lost |
| `Duplicates.ListedTwiceIsLost` | crates/daf-memory/src/consolidation.rs:250-279 | a store of one record and a batch that lists it twice: merging empties the store |
| `Reconciliation.PlanConverges` | examples/infrastructure/main.rs:286-370 | applying a plan leaves exactly what is wanted when entries of one name agree |
| `Reconciliation.EmptyPlanIff` | examples/infrastructure/main.rs:286-370 | a plan is empty exactly when names and sizes agree |
| `Provisioners.Provisioner.MakePlan` | examples/infrastructure/main.rs:286-370 | plans exactly the wanted changes and the removal of the rest, each action accurate in all its fields, and counts them; empty exactly when names, replicas and buffers agree |
| `Provisioners.Provisioner.Apply` | examples/infrastructure/main.rs:373-450 | pools and channels become what the actions, one after the other, make of them |
| `Provisioners.SizesAfterAll` | examples/infrastructure/main.rs:373-450 | seen as names and sizes, any actions make the changes they stand for |
| `Provisioners.StaffedAfterAll` | examples/infrastructure/main.rs:376-411 | any actions keep every pool's agents `name-0` to `name-(n-1)` for its `n` current and desired replicas |
| `Provisioners.AgentsAreDistinct` | examples/infrastructure/main.rs:376-411 | no two agents of a pool have one name |
| `Provisioners.OriginsAfterAll` | examples/infrastructure/main.rs:373-450 | what was there keeps its kind and ends, what is new has those of the topology |
| `Provisioners.Provisioner.Reconcile` | examples/infrastructure/main.rs:286-450 | planning and applying leaves exactly the pools and channels of the topology, with its replicas and buffer sizes, planning again finds nothing to do, kinds and ends are as wanted exactly when those already there were and entries agree |
| `Provisioners.ConvergesIffConsistent` | examples/infrastructure/main.rs:286-450 | one application brings the state in sync exactly when entries of one name agree on replicas and buffer size |
| `Provisioners.Rescale` | examples/infrastructure/main.rs:395-411 | scaling keeps the first agents and numbers new ones on |
| `Provisioners.KindsAndEndsIff` | examples/infrastructure/main.rs:286-450 | applying a plan leaves every wanted pool with its kind and every wanted channel with its ends exactly when entries of one name agree on these and what there was under a wanted name had them |
| `Provisioners.KindAndEndsGoUnnoticed` | examples/infrastructure/main.rs:293-311 | a concrete state and topology whose changed pool kind and channel ends are not planned for |

## Left out

- GraphExecutors.GraphExecutor.RunWave: tasks are taken up one at a time, though in any order; their finer interleavings are runs of `ExecutorProtocol` only.
- GraphExecutors.GraphExecutor.Execute: the caller going away during an execution is a step of `ExecutorProtocol` only.
- Subgraphs.Subgraph: the order of nodes and edges in the new graph, which follows a hash set, and the root's identifier in its name.
- ChannelPools.ChannelPool.Open: the table updates inside one open or close count as one step, as the lifecycle lock orders them; lookups between those updates are not modelled.
- Consolidation.Consolidator.MergeSimilarBatch: store errors and other writers during a merge; a failed update stops the pass before the delete.
- The order in which petgraph lists the edges of a node, newest first. Readiness, skips and sorting do not depend on it; for the depth-first order the listing is a parameter, and the order inside one level of the breadth-first traversal is not promised.
- A second overlapping `execute` on one executor, which a lock refuses at once, and lifecycle callbacks.
- Overflow of `Duration`: durations are unbounded naturals, while the additions of durations in scheduler.rs and dag.rs panic where one does not fit.
- Wall-clock values: elapsed times, deadlines, the `parallelism_factor` and `completion_ratio` floats; a timeout is a failed attempt, a global timeout a step.
- JSON, bincode and msgpack text; the model stops at the wire form's lists and at frame bytes.
- The fairness and wake-up order of asynchronous reservations; any waiting sender may go next.
- Agent selectors other than glob patterns: their combinators restate boolean operators.
- Word splitting and case folding of memory contents: a record carries its word set.
- The other phases of memory consolidation (distillation, reinforcement) and its retention of files.
- Resource pools, routing, conversations, variables, templates, modules, handlers, logs, adapters, storage back ends, identities and the command line: thin state or plumbing next to this core.
