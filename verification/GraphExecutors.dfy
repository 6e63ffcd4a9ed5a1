/** The graph executor over a graph object: the wave loop, the task with its retry loop, the
    joining of tasks and the final clean-up. Every execution is shown to be a run of
    `ExecutorProtocol`, so what is proved of runs is proved of it. Here tasks are taken up
    one at a time, in any order; their finer interleavings are runs of the protocol, too. */
module GraphExecutors {
  import opened Prelude
  import opened Nodes
  import opened Edges
  import opened Topology
  import opened Propagation
  import opened Outcomes
  import opened DiGraphs
  import opened ExecutionGraphs
  import opened Planning
  import opened Schedulers
  import opened ExecutorProtocol
  import opened ExecutorSteps
  import opened ExecutorRuns
  import opened ExecutorStops
  import opened Scripts
  import opened EdgeRules
  import opened Cancellations

  // ----- Traces -----

  /** The run of the protocol that an execution has made so far. */
  datatype Trace = Trace(c: Config, run: seq<State>, steps: seq<Action>) {

    ghost predicate Good() {
      IsRun(c, run, steps) && Covers(c.edges, Now().s)
    }

    ghost function Now(): State {
      if run == [] then Start(c) else run[|run| - 1]
    }

    /** The nodes that their own tasks have cancelled so far. */
    ghost function Hit(): set<NodeId> {
      if |run| == |steps| + 1 then Hits(run, steps, |steps|) else {}
    }
  }

  lemma NewTrace(c: Config) returns (tr: Trace)
    requires c.Proper()
    ensures tr.Good() && tr.c == c && tr.Now() == Start(c) && tr.steps == []
  {
    tr := Trace(c, [Start(c)], []);
  }

  /** One more step of the run. */
  lemma Taken(tr: Trace, a: Action) returns (next: Trace)
    requires tr.Good() && Enabled(tr.c, tr.Now(), a)
    ensures next.Good() && next.c == tr.c && next.Now() == Apply(tr.c, tr.Now(), a)
    ensures next.steps == tr.steps + [a]
  {
    hide IsRun, Enabled, Apply;
    RunHasStates(tr);
    OneStepMore(tr.c, tr.run, tr.steps, a);
    next := Trace(tr.c, tr.run + [Apply(tr.c, tr.Now(), a)], tr.steps + [a]);
    RunHasStates(next);
    NowHolds(next);
  }

  lemma RunHasStates(tr: Trace)
    requires IsRun(tr.c, tr.run, tr.steps)
    ensures |tr.run| == |tr.steps| + 1
  {
  }

  /** What a trace has reached satisfies the invariant. */
  lemma NowHolds(tr: Trace)
    requires IsRun(tr.c, tr.run, tr.steps)
    ensures Inv(tr.c, tr.Now()) && Covers(tr.c.edges, tr.Now().s) && Shaped(tr.c, tr.Now())
    ensures WavesBegun(tr.Now()) + |Pendings(tr.Now().s)| <= |Pendings(tr.c.init)|
  {
    hide IsRun, NodesOk, OnlyAdmitted, PhaseOk, AgreesSoFar;
    RunHasStates(tr);
    RunKeepsInv(tr.c, tr.run, tr.steps, |tr.run| - 1);
  }

  /** The environment has done only what it may. */
  ghost predicate Permitted(steps: seq<Action>, mayCancel: bool, mayTimeOut: bool) {
    && (Cancel in steps ==> mayCancel) && (TimeOut in steps ==> mayTimeOut) && Drop !in steps
  }

  lemma PermittedMore(steps: seq<Action>, a: Action, mayCancel: bool, mayTimeOut: bool)
    requires Permitted(steps, mayCancel, mayTimeOut)
    requires !a.Drop? && (a.Cancel? ==> mayCancel) && (a.TimeOut? ==> mayTimeOut)
    ensures Permitted(steps + [a], mayCancel, mayTimeOut)
  {
  }

  // ----- Counting -----

  /** How many of the first `n` nodes are in a state that `p` accepts. */
  function CountWhere(nodes: seq<Node>, n: nat, p: NodeState -> bool): nat
    requires n <= |nodes|
  {
    if n == 0 then 0 else CountWhere(nodes, n - 1, p) + if p(nodes[n - 1].state) then 1 else 0
  }

  lemma {:induction false} CountIsCardinality(nodes: seq<Node>, n: nat, p: NodeState -> bool)
    requires n <= |nodes| && UniqueIds(nodes)
    ensures CountWhere(nodes, n, p) == |set i | 0 <= i < n && p(nodes[i].state) :: nodes[i].id|
  {
    if n > 0 {
      CountIsCardinality(nodes, n - 1, p);
      var before := set i | 0 <= i < n - 1 && p(nodes[i].state) :: nodes[i].id;
      var now := set i | 0 <= i < n && p(nodes[i].state) :: nodes[i].id;
      assert now == before + if p(nodes[n - 1].state) then {nodes[n - 1].id} else {};
      assert nodes[n - 1].id !in before;
    }
  }

  lemma CountsOverGraph(g: DiGraph, indexMap: map<NodeId, nat>, p: NodeState -> bool)
    requires Rep(g, indexMap)
    ensures CountWhere(g.nodes, |g.nodes|, p) == |Where(StatesOf(Lookup(g, indexMap)), p)|
  {
    CountIsCardinality(g.nodes, |g.nodes|, p);
    var s := StatesOf(Lookup(g, indexMap));
    var counted := set i | 0 <= i < |g.nodes| && p(g.nodes[i].state) :: g.nodes[i].id;
    forall v ensures v in counted <==> v in Where(s, p) {
      if v in Where(s, p) {
        assert g.nodes[indexMap[v]].id == v;
      }
    }
    assert counted == Where(s, p);
  }

  lemma NodeCountIsSize(g: DiGraph, indexMap: map<NodeId, nat>)
    requires Rep(g, indexMap)
    ensures |g.nodes| == |StatesOf(Lookup(g, indexMap))|
  {
    GraphIsPlannable(g, indexMap);
    ListedCardinality(Ids(g.nodes), StatesOf(Lookup(g, indexMap)).Keys);
  }

  method CountStates(nodes: seq<Node>) returns (completed: nat, running: nat, failed: nat, skipped: nat)
    ensures completed == CountWhere(nodes, |nodes|, IsDone) && running == CountWhere(nodes, |nodes|, IsRunning)
    ensures failed == CountWhere(nodes, |nodes|, IsFailed) && skipped == CountWhere(nodes, |nodes|, IsSkipped)
  {
    completed, running, failed, skipped := 0, 0, 0, 0;
    for i := 0 to |nodes|
      invariant completed == CountWhere(nodes, i, IsDone) && running == CountWhere(nodes, i, IsRunning)
      invariant failed == CountWhere(nodes, i, IsFailed) && skipped == CountWhere(nodes, i, IsSkipped)
    {
      match nodes[i].state {
        case Succeeded => completed := completed + 1;
        case Failed => completed, failed := completed + 1, failed + 1;
        case Skipped => completed, skipped := completed + 1, skipped + 1;
        case Cancelled => completed := completed + 1;
        case Running => running := running + 1;
        case _ =>
      }
    }
  }

  // ----- Parts of executions -----

  /** The error that reports why a run stopped. */
  function ErrorFor(why: Interruption): GraphError {
    match why
    case TokenCancelled => Interrupted
    case TimedOut => GlobalTimeout
    case NoConcurrency => InvalidConfiguration("max concurrency must be positive")
    case CallerGone => Interrupted
  }

  /** The result that reports how a run ended. */
  ghost predicate Reports(r: Result<Progress, GraphError>, ending: Ending) {
    match ending
    case Unsupported => r == Err(UnsupportedOutputCondition)
    case Finished(progress) => r == Ok(progress)
    case Stopped(why) => why != CallerGone && r == Err(ErrorFor(why))
  }

  /** The states with the nodes of a wave in state `x`. */
  function WithState(s: States, wave: seq<NodeId>, x: NodeState): (r: States)
    ensures r.Keys == s.Keys
  {
    map v | v in s :: if v in wave then x else s[v]
  }

  lemma NothingSet(m: map<NodeId, Node>, s: States, x: NodeState)
    ensures SameAttributes(m, m) && WithState(s, [], x) == s
  {
  }

  lemma OneMoreSet(m: map<NodeId, Node>, r: map<NodeId, Node>, s: States, wave: seq<NodeId>, v: NodeId, x: NodeState)
    requires SameAttributes(m, r) && v in r && v in s
    ensures SameAttributes(m, r[v := r[v].(state := x)])
    ensures WithState(s, wave + [v], x) == WithState(s, wave, x)[v := x]
  {
  }

  /** The nodes as a run needs them: with the retries its configuration has. */
  ghost predicate RetriesOf(c: Config, m: map<NodeId, Node>) {
    forall v :: v in m ==> c.retries(v) == m[v].MaxRetries()
  }

  lemma NodeRetries(c: Config, m: map<NodeId, Node>, v: NodeId)
    requires RetriesOf(c, m) && v in m
    ensures c.retries(v) == m[v].MaxRetries()
  {
  }

  lemma SameRetries(m: map<NodeId, Node>, r: map<NodeId, Node>, c: Config)
    requires SameAttributes(m, r) && RetriesOf(c, m)
    ensures RetriesOf(c, r)
  {
  }

  /** The tasks of a wave while they are worked off: some not taken up yet, the others
      returned, after a panic or not. */
  function TasksOf(waiting: set<NodeId>, returned: map<NodeId, bool>): (tasks: map<NodeId, Task>)
    ensures tasks.Keys == waiting + returned.Keys
  {
    map v | v in waiting + returned.Keys :: if v in waiting then Waiting else if returned[v] then Panicked else Recorded
  }

  lemma NoHolders(waiting: set<NodeId>, returned: map<NodeId, bool>)
    ensures Holders(TasksOf(waiting, returned)) == {}
  {
  }

  lemma TaskReturns(waiting: set<NodeId>, returned: map<NodeId, bool>, v: NodeId, panicked: bool)
    requires v in waiting && v !in returned
    ensures TasksOf(waiting, returned)[v := if panicked then Panicked else Recorded] ==
            TasksOf(waiting - {v}, returned[v := panicked])
  {
  }

  lemma TaskJoins(waiting: set<NodeId>, returned: map<NodeId, bool>, v: NodeId)
    requires v in returned && v !in waiting
    ensures TasksOf(waiting, returned) - {v} == TasksOf(waiting, returned - {v})
  {
  }

  lemma TaskStarts(wave: seq<NodeId>, v: NodeId)
    ensures TasksOf(Elements(wave), map[])[v := Waiting] == TasksOf(Elements(wave + [v]), map[])
    ensures TasksOf(Elements([]), map[]) == map[]
  {
  }

  lemma NothingPermitted(mayCancel: bool, mayTimeOut: bool)
    ensures Permitted([], mayCancel, mayTimeOut)
  {
  }

  lemma OutputEdgeFound(edges: seq<Edge>)
    ensures HasOutputEdge(edges) <==> exists e :: e in edges && e.EffectiveCondition().OnOutput?
  {
  }

  /** The steps of a single task, as far as they are open to it. */
  lemma TaskSteps(c: Config, st: State, v: NodeId)
    requires Covers(c.edges, st.s) && v in st.tasks && v in st.calls
    ensures st.tasks[v].Attempting? && !st.cancelled ==>
              && Enabled(c, st, Poll(v))
              && Apply(c, st, Poll(v)) == st.(tasks := st.tasks[v := Polled(st.tasks[v].k)])
    ensures st.tasks[v].Polled? ==>
              && Enabled(c, st, Invoke(v))
              && Apply(c, st, Invoke(v)) ==
                 st.(tasks := st.tasks[v := Calling(st.tasks[v].k)], calls := st.calls[v := st.calls[v] + 1])
    ensures st.tasks[v].Calling? ==>
              && Enabled(c, st, Answer(v))
              && Apply(c, st, Answer(v)) == st.(tasks := st.tasks[v := AfterCall(c, v, st.tasks[v].k)])
    ensures (st.tasks[v].Attempting? || st.tasks[v].Calling?) && st.cancelled ==>
              && Enabled(c, st, Notice(v))
              && Apply(c, st, Notice(v)) == st.(tasks := st.tasks[v := Deciding(Cancelled)])
    ensures st.tasks[v].Waiting? && Holders(st.tasks) == {} && c.limit != Some(0) ==>
              && Enabled(c, st, Acquire(v))
              && Apply(c, st, Acquire(v)) == st.(tasks := st.tasks[v := Attempting(0)])
  {
  }

  lemma SpawnSteps(c: Config, st: State, v: NodeId, rest: seq<NodeId>)
    requires Covers(c.edges, st.s) && st.phase == Spawning([v] + rest)
    requires v in st.s && forall u :: u in rest ==> u in st.s
    ensures Enabled(c, st, Spawn)
    ensures Apply(c, st, Spawn) ==
            st.(s := WithState(st.s, [v], Running), tasks := st.tasks[v := Waiting], phase := Spawning(rest))
  {
    assert ([v] + rest)[0] == v && ([v] + rest)[1..] == rest;
    assert WithState(st.s, [v], Running) == st.s[v := Running];
  }

  lemma WaveSplits(wave: seq<NodeId>, i: nat)
    requires i < |wave|
    ensures wave[i..] == [wave[i]] + wave[i + 1..] && wave[..i + 1] == wave[..i] + [wave[i]]
    ensures wave[i] in wave && forall u :: u in wave[i + 1..] ==> u in wave
  {
  }

  lemma WaveEnds(wave: seq<NodeId>)
    ensures wave[0..] == wave && wave[..0] == []
    ensures wave[..|wave|] == wave && wave[|wave|..] == []
  {
  }

  lemma AllSpawned(c: Config, st: State)
    requires Covers(c.edges, st.s) && st.phase == Spawning([])
    ensures Enabled(c, st, Spawn) && Apply(c, st, Spawn) == st.(phase := Joining)
  {
  }

  lemma LastUpdateCounts(tasks: map<NodeId, Task>, v: NodeId, x: Task, y: Task)
    ensures tasks[v := x][v := y] == tasks[v := y]
  {
  }

  lemma CancelledAreOpen(s: States, open: seq<NodeId>)
    requires forall v :: v in open <==> v in s && !s[v].IsTerminal()
    ensures WithState(s, open, Cancelled) == CancelRemaining(s)
  {
  }

  // ----- How executions end -----

  /** The states and calls of a normal return: those the meaning of the graph gives, with
      what can never finish cancelled. */
  ghost predicate CompletedAs(c: Config, s: States, calls: map<NodeId, nat>) {
    && c.Proper() && s.Keys == c.init.Keys == calls.Keys
    && forall rank, v :: Ranked(c.edges, rank) && v in c.init ==>
         var f := Final(c.edges, rank, c.init, WorkOf(c), v);
         && s[v] == Closed(f)
         && calls[v] == if c.init[v].Pending? && (f.Succeeded? || f.Failed?) then c.Calls(v) else 0
  }

  /** The states and calls of an early stop: every node is explained by the meaning of the
      graph and the nodes of `hit`, which their tasks cancelled; without a cancellation of
      the token each is as the meaning says, or cancelled. */
  ghost predicate StoppedAs(c: Config, s: States, calls: map<NodeId, nat>, hit: set<NodeId>, cancelled: bool) {
    && c.Proper() && s.Keys == c.init.Keys == calls.Keys
    && forall rank, v :: Ranked(c.edges, rank) && v in c.init ==>
         && EndsExplained(c, rank, s, calls, hit, v)
         && (!cancelled ==> s[v] == Final(c.edges, rank, c.init, WorkOf(c), v) || s[v] == Cancelled)
  }

  lemma NormalReturn(c: Config, run: seq<State>, steps: seq<Action>)
    requires IsRun(c, run, steps) && EndsFinished(run)
    ensures c.Proper() && CompletedAs(c, run[|run| - 1].s, run[|run| - 1].calls)
  {
    hide Final, Inv, IsStep;
    var last := run[|run| - 1];
    RunKeepsInv(c, run, steps, |run| - 1);
    ShapeHolds(c, last);
    forall rank, v | Ranked(c.edges, rank) && v in c.init
      ensures last.s[v] == Closed(Final(c.edges, rank, c.init, WorkOf(c), v))
      ensures var f := Final(c.edges, rank, c.init, WorkOf(c), v);
              last.calls[v] == if c.init[v].Pending? && (f.Succeeded? || f.Failed?) then c.Calls(v) else 0
    {
      CompletedRunIsFinal(c, run, steps, rank, v);
    }
  }

  lemma EarlyStop(c: Config, run: seq<State>, steps: seq<Action>)
    requires IsRun(c, run, steps) && run[|run| - 1].phase.IsSwept()
    ensures var last := run[|run| - 1];
            c.Proper() && StoppedAs(c, last.s, last.calls, Hits(run, steps, |steps|), Cancel in steps)
  {
    hide Final, Inv, IsStep, EndsExplained, Hits;
    var last := run[|run| - 1];
    RunKeepsInv(c, run, steps, |run| - 1);
    ShapeHolds(c, last);
    forall rank, v | Ranked(c.edges, rank) && v in c.init
      ensures EndsExplained(c, rank, last.s, last.calls, Hits(run, steps, |steps|), v)
      ensures Cancel !in steps ==> last.s[v] == Final(c.edges, rank, c.init, WorkOf(c), v) || last.s[v] == Cancelled
    {
      EndedRunIsExplained(c, run, steps, rank, v);
    }
  }

  /** What an execution delivers. A graph with output conditions, and no other, is refused
      untouched; otherwise no node is left unfinished. A normal return leaves states and
      calls as the meaning of the graph says, and counts them; after an early stop they are
      explained by it, and the error names a cause that occurred. Left alone, under a
      positive limit, an execution returns normally. */
  ghost predicate Delivers(
      r: Result<Progress, GraphError>, c: Config, steps: seq<Action>, hit: set<NodeId>, last: State,
      mayCancel: bool, mayTimeOut: bool)
  {
    && (HasOutputEdge(c.edges) <==> r == Err(UnsupportedOutputCondition))
    && (HasOutputEdge(c.edges) ==> last.s == c.init)
    && (!HasOutputEdge(c.edges) ==> forall v :: v in last.s ==> last.s[v].IsTerminal())
    && (r.Ok? ==> CompletedAs(c, last.s, last.calls))
    && (r.Ok? ==> r.value.total == |last.s| && r.value.waves <= |Pendings(c.init)|)
    && (r.Ok? ==> (r.value.completed == r.value.total <==> StartsClean(c.init)))
    && (r.Ok? ==> r.value.failed == |NodesIn(last.s, Failed)|)
    && (r.Ok? ==> r.value.skipped == |NodesIn(last.s, Skipped)|)
    && (r.Ok? ==> r.value.waves == WavesEnded(steps))
    && (r.Err? && !HasOutputEdge(c.edges) ==> StoppedAs(c, last.s, last.calls, hit, Cancel in steps))
    && (r == Err(Interrupted) ==> last.cancelled)
    && (r == Err(GlobalTimeout) ==> c.timed)
    && (r.Err? && r.error.InvalidConfiguration? ==> c.limit == Some(0))
    && (r.Err? ==>
          || r.error == UnsupportedOutputCondition || r.error == Interrupted || r.error == GlobalTimeout
          || r.error.InvalidConfiguration?)
    && (c.limit == Some(0) ==> r.Err?)
    && (!HasOutputEdge(c.edges) && !mayCancel && !mayTimeOut && c.limit != Some(0) ==> r.Ok?)
  }

  lemma DeliversRefusal(
      r: Result<Progress, GraphError>, c: Config, steps: seq<Action>, hit: set<NodeId>, last: State,
      mayCancel: bool, mayTimeOut: bool)
    requires Delivers(r, c, steps, hit, last, mayCancel, mayTimeOut)
    ensures HasOutputEdge(c.edges) <==> r == Err(UnsupportedOutputCondition)
  {
    hide HasOutputEdge, CompletedAs, StoppedAs, StartsClean;
  }

  /** It follows from the theorems about runs. */
  lemma RunDelivers(tr: Trace, r: Result<Progress, GraphError>, mayCancel: bool, mayTimeOut: bool)
    requires tr.Good() && tr.Now().phase.Ended? && Reports(r, tr.Now().phase.ending)
    requires Permitted(tr.steps, mayCancel, mayTimeOut)
    ensures Delivers(r, tr.c, tr.steps, tr.Hit(), tr.Now(), mayCancel, mayTimeOut)
  {
    hide CompletedAs, StoppedAs, HasOutputEdge, Inv, IsStep, Hits;
    var c, run, steps := tr.c, tr.run, tr.steps;
    RunHasStates(tr);
    NowHolds(tr);
    SizeOfStates(c, tr.Now());
    EndedRunsLeaveNothingOpen(c, run, steps);
    StopsAreJustified(c, run, steps, |run| - 1);
    OutputIsRefused(tr);
    if tr.Now().phase.ending.Finished? {
      NormalReturn(c, run, steps);
      ReportedProgress(c, run, steps);
      BegunUnderALimit(c, run, steps);
    } else if tr.Now().phase.ending.Stopped? {
      EarlyStop(c, run, steps);
    }
    if !HasOutputEdge(c.edges) && !mayCancel && !mayTimeOut && c.limit != Some(0) {
      UndisturbedRunFinishes(c, run, steps);
    }
  }

  /** Where an output condition exists, a run gets nowhere but to its refusal. */
  lemma OutputIsRefused(tr: Trace)
    requires tr.Good()
    ensures HasOutputEdge(tr.c.edges) ==> tr.Now().phase.Entering? || tr.Now().phase == Ended(Unsupported)
  {
    hide IsRun, HasOutputEdge;
    RunHasStates(tr);
    if HasOutputEdge(tr.c.edges) {
      OutputIsRefusedAt(tr.c, tr.run, tr.steps, |tr.run| - 1);
    }
  }

  predicate OnlyRefused(st: State) {
    (st.phase.Entering? || st.phase == Ended(Unsupported)) && st.tasks == map[]
  }

  lemma RefusedStep(c: Config, st: State, a: Action, r: State)
    requires HasOutputEdge(c.edges) && OnlyRefused(st) && IsStep(c, st, a, r)
    ensures OnlyRefused(r)
  {
    hide HasOutputEdge, Covers, SkipAll, IsWave, Holders, ProgressOf;
  }

  lemma {:induction false} OutputIsRefusedAt(c: Config, run: seq<State>, steps: seq<Action>, i: nat)
    requires IsRun(c, run, steps) && HasOutputEdge(c.edges) && i < |run|
    ensures OnlyRefused(run[i])
  {
    hide HasOutputEdge, IsStep;
    if i > 0 {
      OutputIsRefusedAt(c, run, steps, i - 1);
      RefusedStep(c, run[i - 1], steps[i - 1], run[i - 1 + 1]);
    }
  }

  lemma SizeOfStates(c: Config, st: State)
    requires Shaped(c, st)
    ensures |st.s| == |c.init|
  {
    assert |st.s| == |st.s.Keys| && |c.init| == |c.init.Keys|;
  }

  /** Without concurrency nothing begins, so nothing returns normally. */
  lemma BegunUnderALimit(c: Config, run: seq<State>, steps: seq<Action>)
    requires IsRun(c, run, steps) && run[|run| - 1].phase.Ended? && run[|run| - 1].phase.ending.Finished?
    ensures c.limit != Some(0)
  {
    hide IsStep;
    if c.limit == Some(0) {
      NeverBegins(c, run, steps, |run| - 1);
    }
  }

  // ----- What an execution makes of the nodes, by their fields -----

  /** No node starts ready or running. */
  ghost predicate NoneBegun(m: map<NodeId, Node>) {
    forall v :: v in m ==> m[v].state == Pending || HasEnded(m[v].state)
  }

  /** A node that was not pending is as it was; of the others those are skipped that have an
      edge which does not let them go on, given how its source has ended, and no others. */
  ghost predicate SettledBySources(m: map<NodeId, Node>, edges: seq<Edge>, r: map<NodeId, Node>, v: NodeId)
    requires v in m && v in r
  {
    if m[v].state != Pending then r[v].state == m[v].state
    else if IsRefused(r, edges, v) then r[v].state == Skipped
    else r[v].state == Succeeded || r[v].state == Failed
  }

  lemma CalledByScript(c: Config, m: map<NodeId, Node>, v: NodeId, end: NodeState, calls: nat)
    requires v in m && c.retries(v) == m[v].MaxRetries() && v in c.init && c.init[v] == m[v].state
    requires calls <= c.retries(v) + 1 && (m[v].state != Pending || end == Skipped ==> calls == 0)
    requires m[v].state == Pending && (end == Succeeded || end == Failed) ==> end == c.Work(v) && calls == c.Calls(v)
    ensures CalledAsScripted(c.script, m[v], v, end, calls)
  {
    hide AsScripted;
    ScriptDecides(c, v);
  }

  lemma EndOfNode(
      c: Config, v: NodeId, x: NodeState, task: Option<Task>, calls: nat, cancelled: bool, stage: Stage)
    requires v in c.init && NodeOk(c, v, x, task, calls, cancelled, stage)
    ensures calls <= c.retries(v) + 1 && (c.init[v] != Pending || x == Skipped ==> calls == 0)
    ensures c.init[v] == Pending && (x == Succeeded || x == Failed) ==> x == c.Work(v) && calls == c.Calls(v)
  {
  }

  /** A node that ended by its work ended as its work does, with as many calls. */
  lemma EndedByWork(c: Config, run: seq<State>, steps: seq<Action>, v: NodeId)
    requires IsRun(c, run, steps) && v in c.init && run[|run| - 1].phase.Ended?
    ensures var last := run[|run| - 1];
            && v in last.s && v in last.calls && last.calls[v] <= c.retries(v) + 1
            && (c.init[v] != Pending || last.s[v] == Skipped ==> last.calls[v] == 0)
            && (c.init[v] == Pending && (last.s[v] == Succeeded || last.s[v] == Failed) ==>
                  last.s[v] == c.Work(v) && last.calls[v] == c.Calls(v))
  {
    hide IsStep, AgreesSoFar, OnlyAdmitted, HasCycle, PhaseOk, NodeOk, Pendings;
    RunKeepsInv(c, run, steps, |run| - 1);
    var last := run[|run| - 1];
    assert v in last.s;
    EndOfNode(c, v, last.s[v], TaskAt(last.tasks, v), last.calls[v], last.cancelled, StageOf(last.phase));
  }

  lemma SettledNode(c: Config, rank: map<NodeId, nat>, m: map<NodeId, Node>, r: map<NodeId, Node>, v: NodeId)
    requires c.Proper() && Ranked(c.edges, rank) && StatesOf(m) == c.init && NoneBegun(m) && r.Keys == m.Keys && v in m
    requires forall u :: u in m ==> r[u].state == Closed(Final(c.edges, rank, c.init, WorkOf(c), u))
    ensures SettledBySources(m, c.edges, r, v)
  {
    hide Meets, Ranked, HasCycle;
    forall u | u in m ensures r[u].state == Final(c.edges, rank, c.init, WorkOf(c), u) && HasEnded(r[u].state) {
      assert m[u].state == c.init[u];
      CleanStartFinishes(c.edges, rank, c.init, WorkOf(c), u);
    }
    forall e | e in c.edges && e.target == v
      ensures Satisfied(r[e.source].state, e) <==> Meets(e, r[e.source].state)
    {
      SatisfiedMeets(e, r[e.source].state);
    }
  }

  lemma ReturnByFields(tr: Trace, m: map<NodeId, Node>, r: map<NodeId, Node>)
    requires tr.Good() && tr.Now().phase.Ended? && StatesOf(m) == tr.c.init && RetriesOf(tr.c, m)
    requires StatesOf(r) == tr.Now().s
    ensures r.Keys == m.Keys == tr.Now().calls.Keys
    ensures forall v :: v in m ==> CalledAsScripted(tr.c.script, m[v], v, r[v].state, tr.Now().calls[v])
    ensures tr.Now().phase.ending.Finished? && NoneBegun(m) ==>
              forall v :: v in m ==> SettledBySources(m, tr.c.edges, r, v)
  {
    hide IsRun, IsStep, CalledAsScripted, SettledBySources, Final, Ranked, HasCycle, Inv;
    RunHasStates(tr);
    NowHolds(tr);
    ShapeHolds(tr.c, tr.Now());
    var last := tr.run[|tr.run| - 1];
    forall v | v in m ensures CalledAsScripted(tr.c.script, m[v], v, r[v].state, tr.Now().calls[v]) {
      assert v in StatesOf(m) && r[v].state == StatesOf(r)[v];
      EndedByWork(tr.c, tr.run, tr.steps, v);
      CalledByScript(tr.c, m, v, r[v].state, tr.Now().calls[v]);
    }
    if tr.Now().phase.ending.Finished? && NoneBegun(m) {
      RankExistsIffAcyclic(tr.c.edges);
      var rank :| Ranked(tr.c.edges, rank);
      forall u | u in m ensures r[u].state == Closed(Final(tr.c.edges, rank, tr.c.init, WorkOf(tr.c), u)) {
        CompletedRunIsFinal(tr.c, tr.run, tr.steps, rank, u);
        assert r[u].state == StatesOf(r)[u];
      }
      forall v | v in m ensures SettledBySources(m, tr.c.edges, r, v) {
        SettledNode(tr.c, rank, m, r, v);
      }
    }
  }

  /** The nodes that an execution of the nodes `m` has put to work. */
  function AtWorkOf(m: map<NodeId, Node>, s: States): set<NodeId> {
    set v | v in m && v in s && m[v].state == Pending && s[v] == Running
  }

  /** All the time no more nodes are at work than the limit admits, and no handler is called
      before every edge into its node lets it go on. */
  ghost predicate IsOrderly(
      m: map<NodeId, Node>, edges: seq<Edge>, limit: Option<nat>, run: seq<State>, steps: seq<Action>)
  {
    && |run| == |steps| + 1
    && (forall i :: 0 <= i < |run| && limit.Some? ==> |AtWorkOf(m, run[i].s)| <= limit.value)
    && forall i, e :: 0 <= i < |steps| && steps[i].Invoke? && e in edges && e.target == steps[i].v ==>
         e.source in run[i].s && Meets(e, run[i].s[e.source])
  }

  lemma CallIsMet(c: Config, st: State, a: Action, r: State, e: Edge)
    requires Covers(c.edges, st.s) && SafeStep(c, st, a, r) && a.Invoke? && e in c.edges && e.target == a.v
    ensures e.source in st.s && Meets(e, st.s[e.source])
  {
    hide Meets;
    SatisfiedMeets(e, st.s[e.source]);
  }

  lemma SafeAtWork(c: Config, st: State, m: map<NodeId, Node>)
    requires SafeState(c, st) && StatesOf(m) == c.init && c.limit.Some?
    ensures |AtWorkOf(m, st.s)| <= c.limit.value
  {
    assert AtWorkOf(m, st.s) == Runners(c, st.s);
  }

  lemma RunIsOrderly(tr: Trace, m: map<NodeId, Node>)
    requires tr.Good() && StatesOf(m) == tr.c.init
    ensures IsOrderly(m, tr.c.edges, tr.c.limit, tr.run, tr.steps)
  {
    hide IsRun, Meets, AtWorkOf, SafeState, SafeStep, Covers, StatesOf;
    RunHasStates(tr);
    RunsAreSafe(tr.c, tr.run, tr.steps);
    forall i | 0 <= i < |tr.run| && tr.c.limit.Some? ensures |AtWorkOf(m, tr.run[i].s)| <= tr.c.limit.value {
      SafeAtWork(tr.c, tr.run[i], m);
    }
    forall i, e | 0 <= i < |tr.steps| && tr.steps[i].Invoke? && e in tr.c.edges && e.target == tr.steps[i].v
      ensures e.source in tr.run[i].s && Meets(e, tr.run[i].s[e.source])
    {
      StateIsCovered(tr, i);
      CallIsMet(tr.c, tr.run[i], tr.steps[i], tr.run[i + 1], e);
    }
  }

  lemma StateIsCovered(tr: Trace, i: nat)
    requires tr.Good() && i < |tr.run|
    ensures Covers(tr.c.edges, tr.run[i].s)
  {
    hide IsStep, Inv;
    RunKeepsInv(tr.c, tr.run, tr.steps, i);
    ShapeHolds(tr.c, tr.run[i]);
  }

  lemma OutputEdgeByFields(edges: seq<Edge>)
    ensures HasOutputEdge(edges) <==> exists e :: e in edges && e.condition.Some? && e.condition.value.OnOutput?
  {
    if e :| e in edges && e.condition.Some? && e.condition.value.OnOutput? {
      assert e.EffectiveCondition().OnOutput?;
    }
  }

  // ----- The executor -----

  class GraphExecutor {
    const graph: ExecutionGraph
    const script: (NodeId, nat) -> Attempt
    const maxConcurrency: Option<nat>
    /** Whether anyone may cancel the token, and whether there is a global timeout. */
    const mayCancel: bool
    const mayTimeOut: bool
    /** The cancellation token: once cancelled, it stays so. */
    var token: bool

    constructor (graph: ExecutionGraph, script: (NodeId, nat) -> Attempt, maxConcurrency: Option<nat>,
                 mayCancel: bool, mayTimeOut: bool)
      ensures this.graph == graph && this.script == script && this.maxConcurrency == maxConcurrency
      ensures this.mayCancel == mayCancel && this.mayTimeOut == mayTimeOut && !token
    {
      this.graph, this.script, this.maxConcurrency := graph, script, maxConcurrency;
      this.mayCancel, this.mayTimeOut, token := mayCancel, mayTimeOut, false;
    }

    /** The configuration of the run this executor is about to make. */
    ghost function RunConfig(): (c: Config)
      reads graph
    {
      var m := graph.nodes;
      Config(graph.edges, graph.NodeStates(), script, (v: NodeId) => if v in m then m[v].MaxRetries() else 0,
             maxConcurrency, mayTimeOut)
    }

    lemma RunIsProper()
      requires graph.Valid()
      ensures RunConfig().Proper() && RetriesOf(RunConfig(), graph.nodes)
    {
      hide Rep, DependenciesCover, HasCycle;
    }

    /** The configuration is that of this executor. */
    ghost predicate Fits(c: Config) {
      c.script == script && c.limit == maxConcurrency && c.timed == mayTimeOut
    }

    /** The graph and the token are where the trace has got. */
    ghost predicate Tied(tr: Trace)
      reads this, graph
    {
      && graph.Valid() && tr.Good() && Fits(tr.c)
      && tr.c.edges == graph.edges && RetriesOf(tr.c, graph.nodes)
      && tr.Now().s == graph.NodeStates() && tr.Now().cancelled == token
    }

    /** Lets time pass, in which the token may be cancelled. */
    method PassTime(ghost tr: Trace) returns (ghost next: Trace)
      requires Tied(tr) && Permitted(tr.steps, mayCancel, mayTimeOut)
      modifies this
      ensures Tied(next) && Permitted(next.steps, mayCancel, mayTimeOut) && next.c == tr.c
      ensures next.Now() == tr.Now().(cancelled := token) && (old(token) ==> token)
    {
      hide IsRun, RetriesOf, Permitted, Covers;
      next := tr;
      if mayCancel && !token {
        if * {
          next := Taken(tr, Cancel);
          PermittedMore(tr.steps, Cancel, mayCancel, mayTimeOut);
          token := true;
        }
      }
    }

    /** Two traces that differ in calls, tasks and the token only. */
    ghost predicate SamePlace(tr: Trace, next: Trace) {
      && next.c == tr.c && next.Now().s == tr.Now().s
      && next.Now().phase == tr.Now().phase && next.Now().waves == tr.Now().waves
    }

    /** Calls the handler of `v` until it succeeds, panics, no retry remains or the token is
        cancelled; the token is looked at before a call and while it is in flight. None is
        returned for a panic. */
    method RunAttempts(v: NodeId, maxRetries: nat, ghost tr: Trace) returns (end: Option<NodeState>, ghost next: Trace)
      requires Tied(tr) && Permitted(tr.steps, mayCancel, mayTimeOut)
      requires tr.c.retries(v) == maxRetries
      requires v in tr.Now().tasks && tr.Now().tasks[v] == Attempting(0) && v in tr.Now().calls
      modifies this
      ensures Tied(next) && Permitted(next.steps, mayCancel, mayTimeOut) && SamePlace(tr, next)
      ensures next.Now().tasks == tr.Now().tasks[v := if end.None? then Panicked else Deciding(end.value)]
    {
      hide IsRun, RetriesOf, Permitted, Covers, Enabled, Apply, Tied;
      var attempt := 0;
      next := tr;
      while true
        invariant Tied(next) && Permitted(next.steps, mayCancel, mayTimeOut) && SamePlace(tr, next)
        invariant attempt <= maxRetries && v in next.Now().calls
        invariant next.Now().tasks == tr.Now().tasks[v := Attempting(attempt)]
        decreases maxRetries - attempt
      {
        var called;
        called, next := StartCall(v, attempt, next);
        if !called {
          return Some(Cancelled), next;
        }
        var answer;
        answer, next := AwaitCall(v, attempt, next);
        if answer.None? {
          return Some(Cancelled), next;
        }
        match answer.value {
          case Completes => return Some(Succeeded), next;
          case Panics => return None, next;
          case Fails =>
            if attempt == maxRetries {
              return Some(Failed), next;
            }
        }
        attempt := attempt + 1;
      }
    }

    /** A step that leaves node states and the token alone. */
    lemma TakenHere(tr: Trace, a: Action) returns (next: Trace)
      requires Tied(tr) && Permitted(tr.steps, mayCancel, mayTimeOut)
      requires Enabled(tr.c, tr.Now(), a) && !a.Cancel? && !a.Drop? && !a.TimeOut?
      requires Apply(tr.c, tr.Now(), a).s == tr.Now().s && Apply(tr.c, tr.Now(), a).cancelled == tr.Now().cancelled
      ensures Tied(next) && Permitted(next.steps, mayCancel, mayTimeOut) && next.c == tr.c
      ensures next.Now() == Apply(tr.c, tr.Now(), a)
    {
      hide IsRun, RetriesOf, Permitted, Covers, Enabled, Apply;
      next := Taken(tr, a);
      PermittedMore(tr.steps, a, mayCancel, mayTimeOut);
    }

    /** Awaits the end of a call, or the cancellation of the token. */
    method AwaitCall(v: NodeId, k: nat, ghost tr: Trace) returns (answer: Option<Attempt>, ghost next: Trace)
      requires Tied(tr) && Permitted(tr.steps, mayCancel, mayTimeOut)
      requires v in tr.Now().tasks && tr.Now().tasks[v] == Calling(k) && v in tr.Now().calls
      modifies this
      ensures Tied(next) && Permitted(next.steps, mayCancel, mayTimeOut) && SamePlace(tr, next)
      ensures v in next.Now().calls && (answer.Some? ==> answer.value == script(v, k) == tr.c.script(v, k))
      ensures next.Now().tasks ==
              tr.Now().tasks[v := if answer.None? then Deciding(Cancelled) else AfterCall(tr.c, v, k)]
    {
      hide IsRun, RetriesOf, Permitted, Covers, Enabled, Apply, AfterCall;
      next := PassTime(tr);
      TaskSteps(next.c, next.Now(), v);
      if token {
        if * {
          next := TakenHere(next, Notice(v));
          return None, next;
        }
      }
      answer := Some(script(v, k));
      next := TakenHere(next, Answer(v));
    }

    /** Looks at the token before attempt `k`. */
    method LookAtToken(v: NodeId, k: nat, ghost tr: Trace) returns (goOn: bool, ghost next: Trace)
      requires Tied(tr) && Permitted(tr.steps, mayCancel, mayTimeOut)
      requires v in tr.Now().tasks && tr.Now().tasks[v] == Attempting(k) && v in tr.Now().calls
      modifies this
      ensures Tied(next) && Permitted(next.steps, mayCancel, mayTimeOut) && SamePlace(tr, next)
      ensures v in next.Now().calls
      ensures next.Now().tasks == tr.Now().tasks[v := if goOn then Polled(k) else Deciding(Cancelled)]
    {
      hide IsRun, RetriesOf, Permitted, Covers, Enabled, Apply;
      next := PassTime(tr);
      TaskSteps(next.c, next.Now(), v);
      goOn := !token;
      if token {
        next := TakenHere(next, Notice(v));
      } else {
        next := TakenHere(next, Poll(v));
      }
    }

    /** Begins a call, unless the token is seen cancelled before. */
    method StartCall(v: NodeId, k: nat, ghost tr: Trace) returns (called: bool, ghost next: Trace)
      requires Tied(tr) && Permitted(tr.steps, mayCancel, mayTimeOut)
      requires v in tr.Now().tasks && tr.Now().tasks[v] == Attempting(k) && v in tr.Now().calls
      modifies this
      ensures Tied(next) && Permitted(next.steps, mayCancel, mayTimeOut) && SamePlace(tr, next)
      ensures v in next.Now().calls
      ensures next.Now().tasks == tr.Now().tasks[v := if called then Calling(k) else Deciding(Cancelled)]
    {
      hide IsRun, RetriesOf, Permitted, Covers, Enabled, Apply;
      called, next := LookAtToken(v, k, tr);
      if called {
        next := PassTime(next);
        TaskSteps(next.c, next.Now(), v);
        next := TakenHere(next, Invoke(v));
      }
    }

    lemma TaskNodeExists(tr: Trace, v: NodeId)
      requires Tied(tr) && v in tr.Now().tasks
      ensures v in graph.nodes && v in tr.Now().calls && v in tr.Now().s
    {
      hide IsRun, RetriesOf, NodesOk, OnlyAdmitted, PhaseOk, AgreesSoFar;
      NowHolds(tr);
      assert v in tr.c.init;
    }

    /** The attributes that a run needs are not changed by the end of a node. */
    lemma EndKeepsRetries(c: Config, m: map<NodeId, Node>, v: NodeId, s: States)
      requires RetriesOf(c, m) && s.Keys == m.Keys
      ensures RetriesOf(c, WithStates(Timed(m, v, None), s)) && SameAttributes(m, WithStates(Timed(m, v, None), s))
    {
      SameAttributesChain(m, m, m);
      EndedAttributes(m, m, v, s);
      SameRetries(m, WithStates(Timed(m, v, None), s), c);
    }

    lemma StateOfNode(v: NodeId)
      requires graph.Valid() && v in graph.nodes
      ensures v in graph.NodeStates() && graph.NodeStates()[v] == graph.nodes[v].state
    {
      hide Sound, Covers;
    }

    /** Ends node `v` in the graph. */
    method MarkEnd(v: NodeId, end: NodeState, ghost c: Config)
      requires graph.Valid() && v in graph.nodes && RetriesOf(c, graph.nodes)
      modifies graph
      ensures graph.Valid() && graph.edges == old(graph.edges)
      ensures Covers(graph.edges, old(graph.NodeStates())) && v in old(graph.NodeStates())
      ensures graph.NodeStates() == MarkedComplete(graph.edges, old(graph.NodeStates()), v, end)
      ensures RetriesOf(c, graph.nodes) && SameAttributes(old(graph.nodes), graph.nodes)
    {
      hide RetriesOf, Covers, SameAttributes, SkipAll, StatesOf, Sound, WithStates, Timed, IsReady;
      StateOfNode(v);
      var _ := graph.MarkComplete(v, end, None);
      EndKeepsRetries(c, old(graph.nodes), v, graph.NodeStates());
    }

    /** Records how node `v` ended, unless it has been cancelled meanwhile. */
    method Conclude(v: NodeId, end: NodeState, ghost tr: Trace) returns (ghost next: Trace)
      requires Tied(tr) && Permitted(tr.steps, mayCancel, mayTimeOut)
      requires v in tr.Now().tasks && tr.Now().tasks[v] == Deciding(end)
      modifies graph
      ensures Tied(next) && Permitted(next.steps, mayCancel, mayTimeOut) && next.c == tr.c
      ensures next.Now().tasks == tr.Now().tasks[v := Recorded] && next.Now().phase == tr.Now().phase
      ensures next.Now().waves == tr.Now().waves
      ensures graph.edges == old(graph.edges) && SameAttributes(old(graph.nodes), graph.nodes)
    {
      hide IsRun, RetriesOf, Permitted, Covers, SameAttributes, SkipAll, MarkedComplete, StatesOf, Sound;
      TaskNodeExists(tr, v);
      StateOfNode(v);
      SameAttributesChain(graph.nodes, graph.nodes, graph.nodes);
      if graph.GetNode(v).value.state != Cancelled {
        MarkEnd(v, end, tr.c);
      }
      next := Taken(tr, Record(v));
      PermittedMore(tr.steps, Record(v), mayCancel, mayTimeOut);
    }

    /** Runs the task of `v` from its permit to its return. */
    method RunTask(v: NodeId, ghost tr: Trace) returns (panicked: bool, ghost next: Trace)
      requires Tied(tr) && Permitted(tr.steps, mayCancel, mayTimeOut)
      requires v in tr.Now().tasks && tr.Now().tasks[v] == Waiting && Holders(tr.Now().tasks) == {}
      requires maxConcurrency != Some(0)
      modifies this, graph
      ensures Tied(next) && Permitted(next.steps, mayCancel, mayTimeOut) && next.c == tr.c
      ensures next.Now().tasks == tr.Now().tasks[v := if panicked then Panicked else Recorded]
      ensures next.Now().phase == tr.Now().phase && next.Now().waves == tr.Now().waves
      ensures graph.edges == old(graph.edges) && SameAttributes(old(graph.nodes), graph.nodes)
    {
      hide IsRun, Permitted, Covers, SameAttributes, StatesOf, Sound, Holders, Enabled, Apply, RetriesOf;
      TaskNodeExists(tr, v);
      NodeRetries(tr.c, graph.nodes, v);
      SameAttributesChain(graph.nodes, graph.nodes, graph.nodes);
      var node := graph.GetNode(v).value;
      TaskSteps(tr.c, tr.Now(), v);
      next := TakenHere(tr, Acquire(v));
      var end;
      end, next := RunAttempts(v, node.MaxRetries(), next);
      LastUpdateCounts(tr.Now().tasks, v, Attempting(0), if end.None? then Panicked else Deciding(end.value));
      if end.None? {
        return true, next;
      }
      next := PassTime(next);
      next := Conclude(v, end.value, next);
      panicked := false;
    }

    /** Joins the returned task of `v`; only now a panic is recorded. */
    method JoinTask(v: NodeId, panicked: bool, ghost tr: Trace) returns (ghost next: Trace)
      requires Tied(tr) && Permitted(tr.steps, mayCancel, mayTimeOut) && tr.Now().phase.Joining?
      requires v in tr.Now().tasks && tr.Now().tasks[v] == if panicked then Panicked else Recorded
      modifies graph
      ensures Tied(next) && Permitted(next.steps, mayCancel, mayTimeOut) && next.c == tr.c
      ensures next.Now().tasks == tr.Now().tasks - {v} && next.Now().phase.Joining?
      ensures next.Now().waves == tr.Now().waves
      ensures graph.edges == old(graph.edges) && SameAttributes(old(graph.nodes), graph.nodes)
    {
      hide IsRun, RetriesOf, Permitted, Covers, SameAttributes, SkipAll, MarkedComplete, StatesOf, Sound;
      TaskNodeExists(tr, v);
      SameAttributesChain(graph.nodes, graph.nodes, graph.nodes);
      if panicked {
        MarkEnd(v, Failed, tr.c);
      }
      next := Taken(tr, Action.Join(v));
      PermittedMore(tr.steps, Action.Join(v), mayCancel, mayTimeOut);
    }

    /** Whether the execution is stopped from outside at this moment. */
    method Interrupts(ghost tr: Trace) returns (why: Option<Interruption>, ghost next: Trace)
      requires Tied(tr) && Permitted(tr.steps, mayCancel, mayTimeOut) && tr.Now().phase.IsActive()
      modifies this
      ensures Tied(next) && Permitted(next.steps, mayCancel, mayTimeOut) && next.c == tr.c
      ensures next.Now() ==
              tr.Now().(cancelled := token, phase := if why.None? then tr.Now().phase else Stopping(why.value))
      ensures why.Some? ==> (why.value.TokenCancelled? && token) || (why.value.TimedOut? && mayTimeOut)
    {
      hide IsRun, RetriesOf, Permitted, Covers;
      next := PassTime(tr);
      if token {
        if * {
          next := TakenHere(next, Interrupt);
          return Some(TokenCancelled), next;
        }
      }
      if mayTimeOut {
        if * {
          ghost var before := next;
          next := Taken(next, TimeOut);
          PermittedMore(before.steps, TimeOut, mayCancel, mayTimeOut);
          return Some(TimedOut), next;
        }
      }
      why := None;
    }

    /** Runs and joins the tasks of a wave, in an arbitrary order, unless stopped from outside. */
    method RunWave(wave: seq<NodeId>, ghost tr: Trace) returns (why: Option<Interruption>, ghost next: Trace)
      requires Tied(tr) && Permitted(tr.steps, mayCancel, mayTimeOut) && tr.Now().phase.Joining?
      requires tr.Now().tasks == TasksOf(Elements(wave), map[]) && maxConcurrency != Some(0)
      modifies this, graph
      ensures Tied(next) && Permitted(next.steps, mayCancel, mayTimeOut) && next.c == tr.c
      ensures next.Now().waves == tr.Now().waves
      ensures why.None? ==> next.Now().phase.Joining? && next.Now().tasks == map[]
      ensures why.Some? ==> next.Now().phase == Stopping(why.value) && why.value != CallerGone
      ensures graph.edges == old(graph.edges) && SameAttributes(old(graph.nodes), graph.nodes)
    {
      hide IsRun, RetriesOf, Permitted, Covers, SameAttributes, StatesOf, Sound, Holders, TasksOf;
      SameAttributesChain(graph.nodes, graph.nodes, graph.nodes);
      var waiting := Elements(wave);
      var returned: map<NodeId, bool> := map[];
      next := tr;
      while waiting != {} || returned != map[]
        invariant Tied(next) && Permitted(next.steps, mayCancel, mayTimeOut) && next.c == tr.c
        invariant next.Now().phase.Joining? && next.Now().waves == tr.Now().waves
        invariant next.Now().tasks == TasksOf(waiting, returned) && waiting !! returned.Keys
        invariant graph.edges == old(graph.edges) && SameAttributes(old(graph.nodes), graph.nodes)
        decreases waiting, returned.Keys
      {
        why, next := Interrupts(next);
        if why.Some? {
          return;
        }
        ghost var before := graph.nodes;
        var joining := false;
        if returned != map[] {
          if * {
            joining := true;
          }
        }
        if waiting == {} || joining {
          var v :| v in returned;
          TaskIsThere(waiting, returned, v);
          next := JoinTask(v, returned[v], next);
          TaskJoins(waiting, returned, v);
          returned := returned - {v};
        } else {
          var v :| v in waiting;
          TaskIsThere(waiting, returned, v);
          NoHolders(waiting, returned);
          var panicked;
          panicked, next := RunTask(v, next);
          TaskReturns(waiting, returned, v, panicked);
          waiting, returned := waiting - {v}, returned[v := panicked];
        }
        SameAttributesChain(old(graph.nodes), before, graph.nodes);
      }
      NoTasks();
      why := None;
    }

    /** Puts every node of a list into state `x`. */
    method SetStates(nodes: seq<NodeId>, x: NodeState)
      requires graph.Valid() && forall v :: v in nodes ==> v in graph.nodes
      modifies graph
      ensures graph.Valid() && graph.edges == old(graph.edges) && SameAttributes(old(graph.nodes), graph.nodes)
      ensures graph.NodeStates() == WithState(old(graph.NodeStates()), nodes, x)
    {
      hide Sound, Covers, StatesOf, SameAttributes;
      NothingSet(graph.nodes, graph.NodeStates(), x);
      for i := 0 to |nodes|
        invariant graph.Valid() && graph.edges == old(graph.edges) && graph.nodes.Keys == old(graph.nodes.Keys)
        invariant SameAttributes(old(graph.nodes), graph.nodes)
        invariant graph.NodeStates() == WithState(old(graph.NodeStates()), nodes[..i], x)
      {
        assert nodes[..i + 1] == nodes[..i] + [nodes[i]] && nodes[i] in nodes;
        OneMoreSet(old(graph.nodes), graph.nodes, old(graph.NodeStates()), nodes[..i], nodes[i], x);
        graph.SetState(nodes[i], x);
      }
      assert nodes[..|nodes|] == nodes;
    }

    /** Cancels every node that has not finished. */
    method CancelRemainingNodes()
      requires graph.Valid()
      modifies graph
      ensures graph.Valid() && graph.edges == old(graph.edges) && SameAttributes(old(graph.nodes), graph.nodes)
      ensures graph.NodeStates() == CancelRemaining(old(graph.NodeStates()))
    {
      hide Sound, Covers, SameAttributes;
      ghost var s := graph.NodeStates();
      var ids := graph.NodeIds();
      var open := [];
      for i := 0 to |ids|
        invariant forall v :: v in open <==> v in ids[..i] && v in s && !s[v].IsTerminal()
      {
        assert ids[..i + 1] == ids[..i] + [ids[i]] && ids[i] in ids;
        if !graph.GetNode(ids[i]).value.state.IsTerminal() {
          open := open + [ids[i]];
        }
      }
      assert ids[..|ids|] == ids;
      SetStates(open, Cancelled);
      CancelledAreOpen(s, open);
    }

    /** The progress counters of the graph's present states. */
    method CurrentProgress(waves: nat) returns (p: Progress)
      requires graph.Valid()
      ensures p == ProgressOf(graph.NodeStates(), waves)
    {
      hide CountWhere, Where;
      var completed, running, failed, skipped := CountStates(graph.graph.nodes);
      CountsOverGraph(graph.graph, graph.indexMap, IsDone);
      CountsOverGraph(graph.graph, graph.indexMap, IsRunning);
      CountsOverGraph(graph.graph, graph.indexMap, IsFailed);
      CountsOverGraph(graph.graph, graph.indexMap, IsSkipped);
      NodeCountIsSize(graph.graph, graph.indexMap);
      p := Progress(completed, graph.NodeCount(), running, failed, skipped, waves);
    }

    /** The first wave of a new plan, if there is one. */
    method FirstWave() returns (wave: seq<NodeId>)
      requires graph.Valid() && maxConcurrency != Some(0)
      ensures Covers(graph.edges, graph.NodeStates())
      ensures IsWave(graph.edges, graph.NodeStates(), maxConcurrency, wave)
    {
      hide Sound, SkipAll, IsWave;
      var scheduler := WaveScheduler(maxConcurrency);
      var plan := scheduler.PlanWaves(graph);
      ghost var first, t := PlanUnfolds(graph.nodes, graph.edges, graph.NodeStates(), graph.order, maxConcurrency);
      assert NodesOf(plan.value.waves) ==
             PlanFrom(graph.nodes, graph.edges, graph.NodeStates(), graph.order, maxConcurrency);
      wave := if plan.value.waves == [] then [] else plan.value.waves[0].nodes;
      assert wave == first;
    }

    lemma SkipsKeepRetries(c: Config, m: map<NodeId, Node>, s: States)
      requires RetriesOf(c, m) && s.Keys == m.Keys
      ensures RetriesOf(c, WithStates(m, s)) && SameAttributes(m, WithStates(m, s))
    {
    }

    /** Propagates skips and plans the next wave from the states reached so far. */
    method NextPlannedWave(ghost tr: Trace) returns (wave: seq<NodeId>, ghost next: Trace)
      requires Tied(tr) && Permitted(tr.steps, mayCancel, mayTimeOut) && tr.Now().phase.Planning?
      requires maxConcurrency != Some(0)
      modifies graph
      ensures Tied(next) && Permitted(next.steps, mayCancel, mayTimeOut) && next.c == tr.c
      ensures next.Now().phase == if wave == [] then Leaving else Checking(wave)
      ensures next.Now().tasks == tr.Now().tasks && next.Now().waves == tr.Now().waves
      ensures graph.edges == old(graph.edges) && SameAttributes(old(graph.nodes), graph.nodes)
    {
      hide IsRun, RetriesOf, Permitted, Covers, SameAttributes, SkipAll, StatesOf, Sound, WithStates, IsWave;
      ghost var before := graph.nodes;
      graph.SkipImpossibleNodes();
      SkipsKeepRetries(tr.c, before, graph.NodeStates());
      wave := FirstWave();
      next := Taken(tr, Plan(wave));
      PermittedMore(tr.steps, Plan(wave), mayCancel, mayTimeOut);
    }

    lemma MarkedWave(tr: Trace)
      requires Tied(tr) && tr.Now().phase.Marking?
      ensures forall v :: v in tr.Now().phase.wave ==> v in graph.nodes && v in tr.Now().s
      ensures WithState(tr.Now().s, tr.Now().phase.wave, Ready) == AllReady(tr.Now().s, tr.Now().phase.wave)
      ensures tr.Now().tasks == map[]
    {
      hide IsRun, RetriesOf, NodesOk, OnlyAdmitted, AgreesSoFar, StatesOf, Sound, Admitted, Quiescent, IsComplete;
      NowHolds(tr);
    }

    /** Makes the nodes of the planned wave ready. */
    method MarkWave(wave: seq<NodeId>, ghost tr: Trace) returns (ghost next: Trace)
      requires Tied(tr) && Permitted(tr.steps, mayCancel, mayTimeOut) && tr.Now().phase == Marking(wave)
      modifies graph
      ensures Tied(next) && Permitted(next.steps, mayCancel, mayTimeOut) && next.c == tr.c
      ensures next.Now().phase == Spawning(wave) && next.Now().tasks == map[] && next.Now().waves == tr.Now().waves
      ensures forall v :: v in wave ==> v in graph.nodes
      ensures graph.edges == old(graph.edges) && SameAttributes(old(graph.nodes), graph.nodes)
    {
      hide IsRun, RetriesOf, Permitted, Covers, SameAttributes, StatesOf, Sound, WithState, AllReady;
      MarkedWave(tr);
      SetStates(wave, Ready);
      SameRetries(old(graph.nodes), graph.nodes, tr.c);
      assert forall v :: v in wave ==> v in graph.NodeStates();
      next := Taken(tr, Mark);
      PermittedMore(tr.steps, Mark, mayCancel, mayTimeOut);
    }

    method MarkRunning(v: NodeId, ghost c: Config)
      requires graph.Valid() && v in graph.nodes && RetriesOf(c, graph.nodes)
      modifies graph
      ensures graph.Valid() && graph.edges == old(graph.edges)
      ensures graph.NodeStates() == WithState(old(graph.NodeStates()), [v], Running)
      ensures RetriesOf(c, graph.nodes) && SameAttributes(old(graph.nodes), graph.nodes)
    {
      hide RetriesOf, Covers, SameAttributes, Sound, StatesOf;
      NothingSet(graph.nodes, graph.NodeStates(), Running);
      OneMoreSet(graph.nodes, graph.nodes, graph.NodeStates(), [], v, Running);
      assert [] + [v] == [v];
      graph.SetState(v, Running);
      SameRetries(old(graph.nodes), graph.nodes, c);
    }

    /** Marks one more node of the wave running and spawns its task. */
    method SpawnTask(v: NodeId, ghost rest: seq<NodeId>, ghost tr: Trace) returns (ghost next: Trace)
      requires Tied(tr) && Permitted(tr.steps, mayCancel, mayTimeOut) && tr.Now().phase == Spawning([v] + rest)
      requires v in graph.nodes && forall u :: u in rest ==> u in graph.nodes
      modifies graph
      ensures Tied(next) && Permitted(next.steps, mayCancel, mayTimeOut) && next.c == tr.c
      ensures next.Now().phase == Spawning(rest) && next.Now().tasks == tr.Now().tasks[v := Waiting]
      ensures next.Now().waves == tr.Now().waves
      ensures graph.edges == old(graph.edges) && SameAttributes(old(graph.nodes), graph.nodes)
    {
      hide IsRun, RetriesOf, Permitted, Covers, SameAttributes, StatesOf, Sound, Enabled, Apply, WithState;
      assert v in graph.NodeStates() && forall u :: u in rest ==> u in graph.NodeStates();
      SpawnSteps(tr.c, tr.Now(), v, rest);
      MarkRunning(v, tr.c);
      next := Taken(tr, Spawn);
      PermittedMore(tr.steps, Spawn, mayCancel, mayTimeOut);
    }

    /** Spawns the tasks of a wave. */
    method SpawnWave(wave: seq<NodeId>, ghost tr: Trace) returns (ghost next: Trace)
      requires Tied(tr) && Permitted(tr.steps, mayCancel, mayTimeOut)
      requires tr.Now().phase == Spawning(wave) && tr.Now().tasks == map[]
      requires forall v :: v in wave ==> v in graph.nodes
      modifies graph
      ensures Tied(next) && Permitted(next.steps, mayCancel, mayTimeOut) && next.c == tr.c
      ensures next.Now().phase == Joining && next.Now().tasks == TasksOf(Elements(wave), map[])
      ensures next.Now().waves == tr.Now().waves
      ensures graph.edges == old(graph.edges) && SameAttributes(old(graph.nodes), graph.nodes)
    {
      hide IsRun, RetriesOf, Permitted, Covers, SameAttributes, StatesOf, Sound, TasksOf, Enabled, Apply;
      SameAttributesChain(graph.nodes, graph.nodes, graph.nodes);
      TaskStarts([], 0);
      WaveEnds(wave);
      next := tr;
      for i := 0 to |wave|
        invariant Tied(next) && Permitted(next.steps, mayCancel, mayTimeOut) && next.c == tr.c
        invariant next.Now().phase == Spawning(wave[i..]) && next.Now().tasks == TasksOf(Elements(wave[..i]), map[])
        invariant next.Now().waves == tr.Now().waves && graph.nodes.Keys == old(graph.nodes.Keys)
        invariant graph.edges == old(graph.edges) && SameAttributes(old(graph.nodes), graph.nodes)
      {
        WaveSplits(wave, i);
        TaskStarts(wave[..i], wave[i]);
        ghost var before := graph.nodes;
        next := SpawnTask(wave[i], wave[i + 1..], next);
        SameKeys(before, graph.nodes);
        SameAttributesChain(old(graph.nodes), before, graph.nodes);
      }
      AllSpawned(next.c, next.Now());
      next := TakenHere(next, Spawn);
    }

    lemma SameKeys(m: map<NodeId, Node>, r: map<NodeId, Node>)
      requires SameAttributes(m, r)
      ensures m.Keys == r.Keys
    {
    }

    /** Marks, spawns, runs and joins a planned wave, unless stopped from outside. */
    method ExecuteWave(wave: seq<NodeId>, ghost tr: Trace) returns (why: Option<Interruption>, ghost next: Trace)
      requires Tied(tr) && Permitted(tr.steps, mayCancel, mayTimeOut) && tr.Now().phase == Marking(wave)
      requires maxConcurrency != Some(0)
      modifies this, graph
      ensures Tied(next) && Permitted(next.steps, mayCancel, mayTimeOut) && next.c == tr.c
      ensures why.None? ==> next.Now().phase.Planning? && next.Now().waves == tr.Now().waves + 1
      ensures why.Some? ==> next.Now().phase == Stopping(why.value) && why.value != CallerGone
      ensures graph.edges == old(graph.edges) && SameAttributes(old(graph.nodes), graph.nodes)
    {
      hide IsRun, RetriesOf, Permitted, Covers, SameAttributes, StatesOf, Sound, TasksOf;
      next := MarkWave(wave, tr);
      ghost var marked := graph.nodes;
      next := SpawnWave(wave, next);
      SameAttributesChain(old(graph.nodes), marked, graph.nodes);
      ghost var spawned := graph.nodes;
      why, next := RunWave(wave, next);
      SameAttributesChain(old(graph.nodes), spawned, graph.nodes);
      if why.None? {
        next := TakenHere(next, EndWave);
      }
    }

    /** Before a wave begins: the token and the global timeout. */
    method CheckWave(wave: seq<NodeId>, ghost tr: Trace) returns (why: Option<Interruption>, ghost next: Trace)
      requires Tied(tr) && Permitted(tr.steps, mayCancel, mayTimeOut) && tr.Now().phase == Checking(wave)
      modifies this
      ensures Tied(next) && Permitted(next.steps, mayCancel, mayTimeOut) && next.c == tr.c
      ensures next.Now().waves == tr.Now().waves
      ensures why.None? ==> next.Now().phase == Marking(wave)
      ensures why.Some? ==> next.Now().phase == Stopping(why.value) && why.value != CallerGone
    {
      hide IsRun, RetriesOf, Permitted, Covers;
      next := PassTime(tr);
      next := TakenHere(next, Check);
      if token {
        return Some(TokenCancelled), next;
      }
      why, next := Interrupts(next);
    }

    /** Executes wave after wave, planning each from the states reached so far. */
    method ExecuteWaves(ghost tr: Trace) returns (why: Option<Interruption>, waves: nat, ghost next: Trace)
      requires Tied(tr) && Permitted(tr.steps, mayCancel, mayTimeOut) && maxConcurrency != Some(0)
      requires tr.Now().phase.Planning? && tr.Now().waves == 0
      modifies this, graph
      ensures Tied(next) && Permitted(next.steps, mayCancel, mayTimeOut) && next.c == tr.c
      ensures why.None? ==> next.Now().phase.Leaving? && next.Now().waves == waves
      ensures why.Some? ==> next.Now().phase == Stopping(why.value) && why.value != CallerGone
      ensures graph.edges == old(graph.edges) && SameAttributes(old(graph.nodes), graph.nodes)
    {
      hide IsRun, RetriesOf, Permitted, Covers, SameAttributes, StatesOf, Sound, Inv, Shaped;
      SameAttributesChain(graph.nodes, graph.nodes, graph.nodes);
      waves, next := 0, tr;
      while true
        invariant Tied(next) && Permitted(next.steps, mayCancel, mayTimeOut) && next.c == tr.c
        invariant next.Now().phase.Planning? && next.Now().waves == waves
        invariant graph.edges == old(graph.edges) && SameAttributes(old(graph.nodes), graph.nodes)
        decreases |Pendings(tr.c.init)| - waves
      {
        ghost var before := graph.nodes;
        var wave;
        wave, next := NextPlannedWave(next);
        SameAttributesChain(old(graph.nodes), before, graph.nodes);
        if wave == [] {
          return None, waves, next;
        }
        why, next := CheckWave(wave, next);
        if why.Some? {
          return;
        }
        ghost var planned := graph.nodes;
        why, next := ExecuteWave(wave, next);
        SameAttributesChain(old(graph.nodes), planned, graph.nodes);
        if why.Some? {
          return;
        }
        NowHolds(next);
        waves := waves + 1;
      }
    }

    /** The work of an execution that was not cancelled before it began. */
    method ExecuteInner(ghost tr: Trace) returns (r: Result<Progress, GraphError>, ghost next: Trace)
      requires Tied(tr) && Permitted(tr.steps, mayCancel, mayTimeOut)
      requires tr.Now().phase.Entering? && !HasOutputEdge(tr.c.edges) && !token && tr.Now().waves == 0
      modifies this, graph
      ensures Tied(next) && Permitted(next.steps, mayCancel, mayTimeOut) && next.c == tr.c
      ensures next.Now().phase == match r
                case Ok(progress) => Closing(progress)
                case Err(_) => next.Now().phase
      ensures r.Err? ==> next.Now().phase.Stopping? && next.Now().phase.why != CallerGone
                         && r.error == ErrorFor(next.Now().phase.why)
      ensures graph.edges == old(graph.edges) && SameAttributes(old(graph.nodes), graph.nodes)
    {
      hide IsRun, RetriesOf, Permitted, Covers, SameAttributes, StatesOf, Sound, HasOutputEdge, ProgressOf;
      SameAttributesChain(graph.nodes, graph.nodes, graph.nodes);
      next := TakenHere(tr, Enter);
      if maxConcurrency == Some(0) {
        return Err(ErrorFor(NoConcurrency)), next;
      }
      var why, waves;
      why, waves, next := ExecuteWaves(next);
      if why.Some? {
        return Err(ErrorFor(why.value)), next;
      }
      next := PassTime(next);
      var progress := CurrentProgress(waves);
      next := TakenHere(next, Complete);
      r := if token then Err(ErrorFor(TokenCancelled)) else Ok(progress);
    }

    /** Aborts whatever tasks are left, then cancels what has not finished. */
    method CleanUp(ghost tr: Trace) returns (ghost next: Trace)
      requires Tied(tr) && Permitted(tr.steps, mayCancel, mayTimeOut)
      requires tr.Now().phase.Closing? || tr.Now().phase.Stopping?
      modifies graph
      ensures Tied(next) && Permitted(next.steps, mayCancel, mayTimeOut) && next.c == tr.c
      ensures next.Now().phase == Ended(if tr.Now().phase.Closing? then Finished(tr.Now().phase.progress)
                                        else Stopped(tr.Now().phase.why))
      ensures graph.edges == old(graph.edges) && SameAttributes(old(graph.nodes), graph.nodes)
    {
      hide IsRun, RetriesOf, Permitted, Covers, SameAttributes, StatesOf, Sound;
      ghost var before := tr;
      if tr.Now().phase.Stopping? {
        before := AbortAll(tr);
      }
      CancelRemainingNodes();
      SameRetries(old(graph.nodes), graph.nodes, tr.c);
      next := Taken(before, Sweep);
      PermittedMore(before.steps, Sweep, mayCancel, mayTimeOut);
    }

    /** Tasks that are left can all be aborted. */
    lemma {:induction false} AbortAll(tr: Trace) returns (next: Trace)
      requires Tied(tr) && Permitted(tr.steps, mayCancel, mayTimeOut) && tr.Now().phase.Stopping?
      ensures Tied(next) && Permitted(next.steps, mayCancel, mayTimeOut) && next.c == tr.c
      ensures next.Now() == tr.Now().(tasks := map[])
      decreases tr.Now().tasks.Keys
    {
      hide IsRun, RetriesOf, Permitted, Covers, StatesOf, Sound;
      next := tr;
      if tr.Now().tasks != map[] {
        var v :| v in tr.Now().tasks;
        next := TakenHere(tr, Abort(v));
        next := AbortAll(next);
      }
    }

    /** Executes the graph, up to the clean-up, as a run of the protocol that reports how it ended. */
    method ExecuteRun() returns (r: Result<Progress, GraphError>, ghost tr: Trace)
      requires graph.Valid() && (token ==> mayCancel)
      modifies this, graph
      ensures graph.edges == old(graph.edges) && SameAttributes(old(graph.nodes), graph.nodes)
      ensures Tied(tr) && tr.c == old(RunConfig()) && Permitted(tr.steps, mayCancel, mayTimeOut)
      ensures tr.Now().phase.Ended? && Reports(r, tr.Now().phase.ending)
    {
      hide IsRun, RetriesOf, Permitted, Covers, SameAttributes, StatesOf, Sound, HasOutputEdge;
      tr := Begin();
      var refused := exists e :: e in Weights(graph.graph.arcs) && e.EffectiveCondition().OnOutput?;
      OutputEdgeFound(graph.edges);
      if refused {
        SameAttributesChain(graph.nodes, graph.nodes, graph.nodes);
        tr := TakenHere(tr, Enter);
        return Err(UnsupportedOutputCondition), tr;
      }
      r, tr := WorkAndCleanUp(tr);
    }

    /** Before anything else: the token may have been cancelled already, or be so now. */
    method Begin() returns (ghost tr: Trace)
      requires graph.Valid() && (token ==> mayCancel)
      modifies this
      ensures Tied(tr) && tr.c == RunConfig() && Permitted(tr.steps, mayCancel, mayTimeOut)
      ensures tr.Now() == Start(tr.c).(cancelled := token)
    {
      hide IsRun, RetriesOf, Permitted, Covers, StatesOf, Sound;
      RunIsProper();
      tr := NewTrace(RunConfig());
      NothingPermitted(mayCancel, mayTimeOut);
      if token {
        ghost var start := tr;
        tr := Taken(start, Cancel);
        PermittedMore(start.steps, Cancel, mayCancel, mayTimeOut);
      }
      tr := PassTime(tr);
    }

    method WorkAndCleanUp(ghost tr: Trace) returns (r: Result<Progress, GraphError>, ghost next: Trace)
      requires Tied(tr) && Permitted(tr.steps, mayCancel, mayTimeOut)
      requires tr.Now().phase.Entering? && !HasOutputEdge(tr.c.edges) && tr.Now().waves == 0
      modifies this, graph
      ensures graph.edges == old(graph.edges) && SameAttributes(old(graph.nodes), graph.nodes)
      ensures Tied(next) && next.c == tr.c && Permitted(next.steps, mayCancel, mayTimeOut)
      ensures next.Now().phase.Ended? && Reports(r, next.Now().phase.ending)
    {
      hide IsRun, RetriesOf, Permitted, Covers, SameAttributes, StatesOf, Sound, HasOutputEdge;
      SameAttributesChain(graph.nodes, graph.nodes, graph.nodes);
      if token {
        next := TakenHere(tr, Enter);
        r := Err(ErrorFor(TokenCancelled));
      } else {
        r, next := ExecuteInner(tr);
      }
      ghost var worked := graph.nodes;
      next := CleanUp(next);
      SameAttributesChain(old(graph.nodes), worked, graph.nodes);
    }

    /** Executes the graph. The execution is a run of the protocol, in which the environment
        does no more than it may, and delivers what runs deliver. */
    method Execute() returns (r: Result<Progress, GraphError>, ghost tr: Trace)
      requires graph.Valid() && (token ==> mayCancel)
      modifies this, graph
      ensures graph.edges == old(graph.edges) && SameAttributes(old(graph.nodes), graph.nodes)
      ensures Tied(tr) && tr.c == old(RunConfig()) && Permitted(tr.steps, mayCancel, mayTimeOut)
      ensures tr.Now().phase.Ended? && Reports(r, tr.Now().phase.ending)
      ensures Delivers(r, tr.c, tr.steps, tr.Hit(), tr.Now(), mayCancel, mayTimeOut)
      ensures r == Err(UnsupportedOutputCondition) <==>
              exists e :: e in graph.edges && e.condition.Some? && e.condition.value.OnOutput?
      ensures graph.nodes.Keys == old(graph.nodes.Keys) == tr.Now().calls.Keys
      ensures forall v :: v in graph.nodes ==>
                CalledAsScripted(script, old(graph.nodes)[v], v, graph.nodes[v].state, tr.Now().calls[v])
      ensures r.Ok? && NoneBegun(old(graph.nodes)) ==>
                forall v :: v in graph.nodes ==> SettledBySources(old(graph.nodes), graph.edges, graph.nodes, v)
      ensures IsOrderly(old(graph.nodes), graph.edges, maxConcurrency, tr.run, tr.steps)
    {
      hide IsOrderly;
      hide IsRun, RetriesOf, Permitted, Covers, SameAttributes, StatesOf, Sound, HasOutputEdge, Delivers,
           CalledAsScripted, SettledBySources, NoneBegun;
      ghost var m := graph.nodes;
      RunIsProper();
      r, tr := ExecuteRun();
      RunDelivers(tr, r, mayCancel, mayTimeOut);
      OutputEdgeByFields(graph.edges);
      DeliversRefusal(r, tr.c, tr.steps, tr.Hit(), tr.Now(), mayCancel, mayTimeOut);
      ReturnByFields(tr, m, graph.nodes);
      RunIsOrderly(tr, m);
    }
  }

  lemma TaskIsThere(waiting: set<NodeId>, returned: map<NodeId, bool>, v: NodeId)
    requires v in waiting || v in returned
    ensures v in TasksOf(waiting, returned)
    ensures v in waiting ==> TasksOf(waiting, returned)[v] == Waiting
    ensures v !in waiting ==> TasksOf(waiting, returned)[v] == if returned[v] then Panicked else Recorded
  {
  }

  lemma NoTasks()
    ensures TasksOf({}, map[]) == map[]
  {
  }
}