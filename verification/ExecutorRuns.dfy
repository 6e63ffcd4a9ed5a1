/** Whole runs of the executor: safety, freedom from deadlock, termination, and the one
    result that every completed run has. */
module ExecutorRuns {
  import opened Prelude
  import opened Nodes
  import opened Edges
  import opened Topology
  import opened Propagation
  import opened Outcomes
  import opened Planning
  import opened ExecutorProtocol
  import opened ExecutorSteps

  ghost predicate IsStep(c: Config, st: State, a: Action, r: State) {
    Covers(c.edges, st.s) && Enabled(c, st, a) && r == Apply(c, st, a)
  }

  /** A run: states from the start on, each reached from the one before by a step. */
  ghost predicate IsRun(c: Config, run: seq<State>, steps: seq<Action>) {
    && c.Proper()
    && |run| == |steps| + 1 && run[0] == Start(c)
    && forall i :: 0 <= i < |steps| ==> IsStep(c, run[i], steps[i], run[i + 1])
  }

  lemma {:induction false} RunKeepsInv(c: Config, run: seq<State>, steps: seq<Action>, i: nat)
    requires IsRun(c, run, steps) && i < |run|
    ensures Inv(c, run[i])
  {
    hide Inv, Enabled;
    if i == 0 {
      StartHolds(c);
    } else {
      RunKeepsInv(c, run, steps, i - 1);
      assert IsStep(c, run[i - 1], steps[i - 1], run[i - 1 + 1]);
      StepKeeps(c, run[i - 1], steps[i - 1]);
    }
  }

  // ----- Safety -----

  /** A step never changes the state of a finished node, and calls a handler only for a
      pending-born node whose incoming edges are all satisfied by finished sources,
      which has calls left and which is running (or was cancelled when the caller went). */
  ghost predicate SafeStep(c: Config, st: State, a: Action, r: State)
    requires Covers(c.edges, st.s)
  {
    && KeepsFinished(st.s, r.s)
    && (a.Invoke? ==>
          && a.v in st.s && a.v in st.calls && a.v in c.init && c.init[a.v].Pending?
          && (st.s[a.v].Running? || (st.s[a.v].Cancelled? && st.phase == Ended(Stopped(CallerGone))))
          && (forall e :: e in c.edges && e.target == a.v ==>
                st.s[e.source].IsTerminal() && Satisfied(st.s[e.source], e))
          && st.calls[a.v] <= c.retries(a.v))
  }

  lemma InvokeIsSafe(c: Config, st: State, v: NodeId)
    requires Inv(c, st) && Enabled(c, st, Invoke(v))
    ensures SafeStep(c, st, Invoke(v), Apply(c, st, Invoke(v)))
  {
    hide Inv, Covers;
    TaskIsOk(c, st, v);
    TaskIsAdmitted(c, st, v);
    ShapeHolds(c, st);
  }

  lemma TaskIsAdmitted(c: Config, st: State, v: NodeId)
    requires Inv(c, st) && v in st.tasks
    ensures Admitted(c.edges, st.s, v)
    ensures st.phase.IsSwept() ==> st.phase == Ended(Stopped(CallerGone))
  {
    hide AgreesSoFar, HasCycle, NodesOk, Admitted, IsComplete;
    assert v in c.init;
    assert st.tasks != map[];
  }

  /** The steps that may change states of nodes. */
  predicate MovesNodes(a: Action) {
    a.Plan? || a.Mark? || a.Spawn? || a.Record? || a.Join? || a.Sweep?
  }

  lemma OthersKeepStates(c: Config, st: State, a: Action)
    requires Covers(c.edges, st.s) && Enabled(c, st, a) && !MovesNodes(a)
    ensures Apply(c, st, a).s == st.s
  {
    hide Covers, Holders, ProgressOf, AfterCall, HasOutputEdge;
  }

  lemma MovesKeepFinished(c: Config, st: State, a: Action)
    requires Inv(c, st) && Covers(c.edges, st.s) && Enabled(c, st, a) && MovesNodes(a)
    ensures KeepsFinished(st.s, Apply(c, st, a).s)
  {
    hide Inv, Covers, SkipAll, IsWave, Holders, ProgressOf, HasOutputEdge;
    ShapeHolds(c, st);
    match a {
      case Plan(_) => SkipAllOnlySkips(c.edges, st.s);
      case Record(v) => RecordedEnd(c, st, v);
      case Join(v) => RecordedEnd(c, st, v);
      case Spawn =>
        if st.phase.rest != [] {
          SpawnedNodeIsReady(c, st);
        }
      case _ =>
    }
  }

  lemma EveryStepIsSafe(c: Config, st: State, a: Action)
    requires Inv(c, st) && Enabled(c, st, a)
    ensures SafeStep(c, st, a, Apply(c, st, a))
  {
    hide Inv, Covers, Enabled, Apply;
    ShapeHolds(c, st);
    if a.Invoke? {
      InvokeIsSafe(c, st, a.v);
    } else if MovesNodes(a) {
      MovesKeepFinished(c, st, a);
    } else {
      OthersKeepStates(c, st, a);
    }
  }

  lemma SpawnedNodeIsReady(c: Config, st: State)
    requires Inv(c, st) && st.phase.Spawning? && st.phase.rest != []
    ensures st.phase.rest[0] in st.s && st.s[st.phase.rest[0]].Ready?
  {
    assert st.phase.rest[0] in st.phase.rest;
  }

  lemma RecordedEnd(c: Config, st: State, v: NodeId)
    requires Inv(c, st) && v in st.tasks
    ensures v in st.s
    ensures st.tasks[v].Deciding? && !st.s[v].Cancelled? ==>
              KeepsFinished(st.s, MarkedComplete(c.edges, st.s, v, st.tasks[v].end))
    ensures st.tasks[v].Panicked? && st.phase.Joining? ==> KeepsFinished(st.s, MarkedComplete(c.edges, st.s, v, Failed))
  {
    hide AgreesSoFar, HasCycle, OnlyAdmitted, IsComplete, Quiescent;
    assert v in c.init;
    if st.tasks[v].Deciding? || st.tasks[v].Panicked? {
      EndIsRecordable(c, st, v);
      if st.s[v].Running? {
        EndedStates(c.edges, st.s, v, if st.tasks[v].Panicked? then Failed else st.tasks[v].end);
      } else if st.phase.Joining? {
        assert NodeOk(c, v, st.s[v], TaskAt(st.tasks, v), st.calls[v], st.cancelled, StageOf(st.phase));
      }
    }
  }

  /** The nodes this run has put in state `Running`. */
  ghost function Runners(c: Config, s: States): set<NodeId> {
    set v | v in s && v in c.init && c.init[v].Pending? && s[v].Running?
  }

  /** What holds in every state of every run. */
  ghost predicate SafeState(c: Config, st: State) {
    && st.s.Keys == st.calls.Keys == c.init.Keys
    && (forall v :: v in st.calls ==> st.calls[v] <= c.retries(v) + 1)
    && (forall v :: v in st.s && st.s[v].Skipped? ==> st.calls[v] == 0)
    && (forall v :: v in st.s && !c.init[v].Pending? ==> st.calls[v] == 0)
    && (c.limit.Some? ==> |Runners(c, st.s)| <= c.limit.value && |st.tasks| <= c.limit.value)
  }

  lemma RunnersHaveTasks(c: Config, st: State)
    requires Inv(c, st) && !st.phase.Stopping?
    ensures |Runners(c, st.s)| <= |st.tasks|
  {
    hide AgreesSoFar, HasCycle, OnlyAdmitted, PhaseOk;
    forall v | v in Runners(c, st.s) ensures v in st.tasks {
      assert NodeOk(c, v, st.s[v], TaskAt(st.tasks, v), st.calls[v], st.cancelled, StageOf(st.phase));
    }
    SubsetCardinality(Runners(c, st.s), st.tasks.Keys);
  }

  lemma TasksWithinLimit(c: Config, st: State)
    requires Inv(c, st)
    ensures WithinLimit(c, |st.tasks|)
  {
    hide AgreesSoFar, HasCycle, OnlyAdmitted, NodesOk;
  }

  /** Only spawning makes nodes run, and it leads to no stop. */
  lemma StoppingStartsNothing(c: Config, st: State, a: Action)
    requires Inv(c, st) && Enabled(c, st, a) && Apply(c, st, a).phase.Stopping?
    ensures |Runners(c, Apply(c, st, a).s)| <= |Runners(c, st.s)|
  {
    hide Inv, Covers, Enabled, Apply, Runners;
    ShapeHolds(c, st);
    var r := Apply(c, st, a);
    if a.Record? {
      RecordAddsNoRunner(c, st, a.v);
    } else {
      StoppingKeepsStates(c, st, a);
    }
    SubsetCardinality(Runners(c, r.s), Runners(c, st.s));
  }

  lemma StoppingKeepsStates(c: Config, st: State, a: Action)
    requires Covers(c.edges, st.s) && Enabled(c, st, a) && Apply(c, st, a).phase.Stopping? && !a.Record?
    ensures Apply(c, st, a).s == st.s
  {
    hide Covers, SkipAll, IsWave, Holders, ProgressOf, AfterCall, HasOutputEdge, MarkedComplete;
  }

  lemma RecordAddsNoRunner(c: Config, st: State, v: NodeId)
    requires Inv(c, st) && Enabled(c, st, Record(v))
    ensures Runners(c, Apply(c, st, Record(v)).s) <= Runners(c, st.s)
  {
    hide Inv, Covers, SkipAll, RestOk, NodeOk;
    ShapeHolds(c, st);
    EndIsRecordable(c, st, v);
    SkipAllOnlySkips(c.edges, st.s[v := st.tasks[v].end]);
  }

  lemma {:induction false} RunnersWithinLimit(c: Config, run: seq<State>, steps: seq<Action>, i: nat)
    requires IsRun(c, run, steps) && i < |run|
    ensures WithinLimit(c, |Runners(c, run[i].s)|)
  {
    hide Inv, Enabled, Runners;
    RunKeepsInv(c, run, steps, i);
    if run[i].phase.Stopping? && i > 0 {
      RunnersWithinLimit(c, run, steps, i - 1);
      RunKeepsInv(c, run, steps, i - 1);
      assert IsStep(c, run[i - 1], steps[i - 1], run[i - 1 + 1]);
      StoppingStartsNothing(c, run[i - 1], steps[i - 1]);
    } else {
      RunnersHaveTasks(c, run[i]);
      TasksWithinLimit(c, run[i]);
    }
  }

  lemma CallsAreBounded(c: Config, st: State, v: NodeId)
    requires Inv(c, st) && v in c.init
    ensures v in st.s && v in st.calls && st.calls[v] <= c.retries(v) + 1
    ensures st.s[v].Skipped? || !c.init[v].Pending? ==> st.calls[v] == 0
  {
    hide AgreesSoFar, HasCycle, OnlyAdmitted, PhaseOk;
    assert NodeOk(c, v, st.s[v], TaskAt(st.tasks, v), st.calls[v], st.cancelled, StageOf(st.phase));
  }

  /** Safety of whole runs. */
  lemma RunsAreSafe(c: Config, run: seq<State>, steps: seq<Action>)
    requires IsRun(c, run, steps)
    ensures forall i :: 0 <= i < |run| ==> SafeState(c, run[i])
    ensures forall i :: 0 <= i < |steps| ==> SafeStep(c, run[i], steps[i], run[i + 1])
  {
    hide Inv, Enabled, Runners, SafeStep;
    forall i | 0 <= i < |run| ensures SafeState(c, run[i]) {
      RunKeepsInv(c, run, steps, i);
      forall v | v in c.init
        ensures v in run[i].s && v in run[i].calls && run[i].calls[v] <= c.retries(v) + 1
        ensures run[i].s[v].Skipped? || !c.init[v].Pending? ==> run[i].calls[v] == 0
      {
        CallsAreBounded(c, run[i], v);
      }
      ShapeHolds(c, run[i]);
      RunnersWithinLimit(c, run, steps, i);
      TasksWithinLimit(c, run[i]);
    }
    forall i | 0 <= i < |steps| ensures SafeStep(c, run[i], steps[i], run[i + 1]) {
      RunKeepsInv(c, run, steps, i);
      assert IsStep(c, run[i], steps[i], run[i + 1]);
      EveryStepIsSafe(c, run[i], steps[i]);
    }
  }

  // ----- What a run ends with -----

  /** What the state of a node becomes when the run is over: an unfinished one is cancelled. */
  function Closed(x: NodeState): NodeState {
    if x.IsTerminal() then x else Cancelled
  }

  ghost predicate EndsFinished(run: seq<State>) {
    |run| > 0 && run[|run| - 1].phase.Ended? && run[|run| - 1].phase.ending.Finished?
  }

  /** Every run that returns normally leaves each node in the state the recursive meaning
      of the graph gives it, with exactly the handler calls its work takes, whatever the
      order of completion, the choice of waves and the concurrency limit. */
  lemma CompletedRunIsFinal(c: Config, run: seq<State>, steps: seq<Action>, rank: map<NodeId, nat>, v: NodeId)
    requires IsRun(c, run, steps) && EndsFinished(run) && Ranked(c.edges, rank) && v in c.init
    ensures var f, last := Final(c.edges, rank, c.init, WorkOf(c), v), run[|run| - 1];
            && v in last.s && last.s[v] == Closed(f)
            && v in last.calls
            && last.calls[v] == if c.init[v].Pending? && (f.Succeeded? || f.Failed?) then c.Calls(v) else 0
  {
    hide AgreesSoFar, HasCycle, OnlyAdmitted, NodesOk;
    var last := run[|run| - 1];
    RunKeepsInv(c, run, steps, |run| - 1);
    var s :| CompletedBefore(c, last, s, last.phase.ending.progress);
  }

  /** From an all-pending start: each node has ended as its work does if the final states
      of its sources satisfy all its incoming edges, and has been skipped otherwise. */
  lemma CompletedRunFromPending(c: Config, run: seq<State>, steps: seq<Action>, v: NodeId)
    requires IsRun(c, run, steps) && EndsFinished(run) && v in c.init
    requires forall u :: u in c.init ==> c.init[u].Pending?
    ensures Covers(c.edges, run[|run| - 1].s) && v in run[|run| - 1].s
    ensures run[|run| - 1].s[v] == if Admitted(c.edges, run[|run| - 1].s, v) then c.Work(v) else Skipped
  {
    hide Inv, Enabled, Final, IsStep, Ranked, HasCycle;
    var last := run[|run| - 1];
    RankExistsIffAcyclic(c.edges);
    var rank :| Ranked(c.edges, rank);
    RunKeepsInv(c, run, steps, |run| - 1);
    ShapeHolds(c, last);
    forall u | u in c.init ensures last.s[u] == Final(c.edges, rank, c.init, WorkOf(c), u) {
      CompletedRunIsFinal(c, run, steps, rank, u);
      CleanStartFinishes(c.edges, rank, c.init, WorkOf(c), u);
    }
    FinalFromPendingStart(c.edges, rank, c.init, WorkOf(c), v);
  }

  /** Two runs of the same graph and work, under any limits, end alike. */
  lemma ScheduleIndependence(
      c: Config, run: seq<State>, steps: seq<Action>, d: Config, other: seq<State>, moves: seq<Action>)
    requires IsRun(c, run, steps) && EndsFinished(run) && IsRun(d, other, moves) && EndsFinished(other)
    requires d == c.(limit := d.limit, timed := d.timed)
    ensures run[|run| - 1].s == other[|other| - 1].s
    ensures run[|run| - 1].calls == other[|other| - 1].calls
  {
    hide Inv, Enabled, Final, IsStep, Ranked, HasCycle;
    RankExistsIffAcyclic(c.edges);
    var rank :| Ranked(c.edges, rank);
    RunKeepsInv(c, run, steps, |run| - 1);
    RunKeepsInv(d, other, moves, |other| - 1);
    ShapeHolds(c, run[|run| - 1]);
    ShapeHolds(d, other[|other| - 1]);
    forall v | v in c.init
      ensures run[|run| - 1].s[v] == other[|other| - 1].s[v]
      ensures run[|run| - 1].calls[v] == other[|other| - 1].calls[v]
    {
      CompletedRunIsFinal(c, run, steps, rank, v);
      CompletedRunIsFinal(d, other, moves, rank, v);
      SameWork(c, d);
      SameMeaning(c, d, rank, v);
      SameAttempts(c, d, v, 0);
    }
  }

  lemma {:induction false} SameAttempts(c: Config, d: Config, v: NodeId, k: nat)
    requires d == c.(limit := d.limit, timed := d.timed) && k <= c.retries(v)
    ensures d.WorkFrom(v, k) == c.WorkFrom(v, k) && d.CallsFrom(v, k) == c.CallsFrom(v, k)
    decreases c.retries(v) - k
  {
    if k < c.retries(v) {
      SameAttempts(c, d, v, k + 1);
    }
  }

  lemma SameWork(c: Config, d: Config)
    requires d == c.(limit := d.limit, timed := d.timed)
    ensures forall v :: WorkOf(c)(v) == WorkOf(d)(v)
  {
    forall v ensures WorkOf(c)(v) == WorkOf(d)(v) {
      SameAttempts(c, d, v, 0);
    }
  }

  lemma {:induction false} SameMeaning(c: Config, d: Config, rank: map<NodeId, nat>, v: NodeId)
    requires c.Proper() && Ranked(c.edges, rank) && v in c.init
    requires d.edges == c.edges && d.init == c.init && forall u :: WorkOf(c)(u) == WorkOf(d)(u)
    ensures Final(c.edges, rank, c.init, WorkOf(c), v) == Final(d.edges, rank, d.init, WorkOf(d), v)
    decreases RankOf(rank, v)
  {
    forall e | e in c.edges && e.target == v
      ensures Final(c.edges, rank, c.init, WorkOf(c), e.source) == Final(d.edges, rank, d.init, WorkOf(d), e.source)
    {
      SameMeaning(c, d, rank, e.source);
    }
  }

  function NodesIn(s: States, x: NodeState): set<NodeId> {
    set v | v in s && s[v] == x
  }

  /** The reported progress counts the nodes the run finished: all of them exactly when
      every node started pending or finished; those that ended failed and skipped; and the
      waves that ran, no more than there were pending nodes. */
  lemma ReportedProgress(c: Config, run: seq<State>, steps: seq<Action>)
    requires IsRun(c, run, steps) && EndsFinished(run)
    ensures var p := run[|run| - 1].phase.ending.progress;
            && p.total == |c.init| && p.waves <= |Pendings(c.init)|
            && (p.completed == p.total <==> StartsClean(c.init))
            && p.running == |Where(c.init, IsRunning)|
            && p.failed == |NodesIn(run[|run| - 1].s, Failed)|
            && p.skipped == |NodesIn(run[|run| - 1].s, Skipped)|
            && p.waves == WavesEnded(steps)
  {
    hide Inv, Enabled, Final, IsStep, Ranked, HasCycle, IsComplete, Where;
    var last := run[|run| - 1];
    RunKeepsInv(c, run, steps, |run| - 1);
    var s := CompletionOf(c, last);
    CompletedCount(c, s, last.calls);
    CleanUpKeepsCounts(s);
    WavesAreCounted(c, run, steps, |steps|);
    assert steps[..|steps|] == steps;
  }

  /** The number of waves that a run ended. */
  function WavesEnded(steps: seq<Action>): nat {
    if steps == [] then 0 else WavesEnded(steps[..|steps| - 1]) + if steps[|steps| - 1].EndWave? then 1 else 0
  }

  lemma WavesStep(c: Config, st: State, a: Action)
    requires Covers(c.edges, st.s) && Enabled(c, st, a)
    ensures Apply(c, st, a).waves == st.waves + if a.EndWave? then 1 else 0
  {
    hide Covers, SkipAll, IsWave, Holders, ProgressOf, AfterCall, HasOutputEdge, MarkedComplete;
  }

  lemma {:induction false} WavesAreCounted(c: Config, run: seq<State>, steps: seq<Action>, n: nat)
    requires IsRun(c, run, steps) && n <= |steps|
    ensures run[n].waves == WavesEnded(steps[..n])
  {
    hide Inv, Enabled, Apply;
    if n > 0 {
      WavesAreCounted(c, run, steps, n - 1);
      assert steps[..n][..n - 1] == steps[..n - 1];
      assert IsStep(c, run[n - 1], steps[n - 1], run[n - 1 + 1]);
      RunKeepsInv(c, run, steps, n - 1);
      ShapeHolds(c, run[n - 1]);
      WavesStep(c, run[n - 1], steps[n - 1]);
    }
  }

  /** Cancelling what has not finished changes neither the failed nodes nor the skipped ones. */
  lemma CleanUpKeepsCounts(s: States)
    ensures var r := CancelRemaining(s);
            && Where(s, IsFailed) == NodesIn(r, Failed) && Where(s, IsSkipped) == NodesIn(r, Skipped)
  {
  }

  lemma CompletionOf(c: Config, st: State) returns (s: States)
    requires Inv(c, st) && st.phase.Ended? && st.phase.ending.Finished?
    ensures s.Keys == c.init.Keys == st.calls.Keys && IsComplete(c, s, st.calls)
    ensures st.phase.ending.progress == ProgressOf(s, st.waves) && st.waves <= |Pendings(c.init)|
    ensures st.s == CancelRemaining(s)
  {
    hide AgreesSoFar, HasCycle, OnlyAdmitted, NodesOk, IsComplete;
    s :| CompletedBefore(c, st, s, st.phase.ending.progress);
  }

  lemma CompletedCount(c: Config, s: States, calls: map<NodeId, nat>)
    requires c.Proper() && s.Keys == c.init.Keys == calls.Keys && IsComplete(c, s, calls)
    ensures |s| == |c.init| && Where(s, IsRunning) == Where(c.init, IsRunning)
    ensures |Where(s, IsDone)| == |s| <==> StartsClean(c.init)
  {
    hide IsComplete, HasCycle, Final, Ranked, Covers;
    RankExistsIffAcyclic(c.edges);
    var rank :| Ranked(c.edges, rank);
    AllFinishIffCleanStart(c.edges, rank, c.init, WorkOf(c));
    forall v | v in s
      ensures s[v] == Final(c.edges, rank, c.init, WorkOf(c), v) && (s[v].Running? <==> c.init[v].Running?)
    {
      CompleteNode(c, s, calls, rank, v);
    }
    DoneCount(s);
    assert |s| == |s.Keys| == |c.init.Keys| == |c.init|;
  }

  lemma CompleteNode(c: Config, s: States, calls: map<NodeId, nat>, rank: map<NodeId, nat>, v: NodeId)
    requires c.Proper() && s.Keys == c.init.Keys == calls.Keys && IsComplete(c, s, calls) && Ranked(c.edges, rank)
    requires v in s
    ensures s[v] == Final(c.edges, rank, c.init, WorkOf(c), v) && (s[v].Running? <==> c.init[v].Running?)
  {
    hide HasCycle, Covers;
  }

  lemma DoneCount(s: States)
    ensures |Where(s, IsDone)| == |s| <==> forall v :: v in s ==> s[v].IsTerminal()
  {
    var done := Where(s, IsDone);
    SubsetCardinality(done, s.Keys);
    if v :| v in s && !s[v].IsTerminal() {
      assert v in s.Keys && v !in done;
    } else {
      assert done == s.Keys;
    }
  }

  /** However a run ends, every node has finished, except that a graph with output
      conditions is refused with no node changed and no handler called; and unless the
      caller went away, no task is left. */
  lemma EndedRunsLeaveNothingOpen(c: Config, run: seq<State>, steps: seq<Action>)
    requires IsRun(c, run, steps) && run[|run| - 1].phase.Ended?
    ensures var last := run[|run| - 1];
            && (last.phase.ending.Unsupported? ==>
                  && HasOutputEdge(c.edges) && last.s == c.init
                  && forall v :: v in c.init ==> v in last.calls && last.calls[v] == 0)
            && (!last.phase.ending.Unsupported? ==> forall v :: v in last.s ==> last.s[v].IsTerminal())
            && (last.phase != Ended(Stopped(CallerGone)) ==> last.tasks == map[])
  {
    hide AgreesSoFar, HasCycle, OnlyAdmitted, NodesOk;
    RunKeepsInv(c, run, steps, |run| - 1);
    var last := run[|run| - 1];
    if !last.phase.ending.Unsupported? {
      forall v | v in last.s ensures last.s[v].IsTerminal() {
        SweptNodeIsDone(c, last, v);
      }
    }
  }

  lemma SweptNodeIsDone(c: Config, st: State, v: NodeId)
    requires Inv(c, st) && st.phase.IsSwept() && v in st.s
    ensures st.s[v].IsTerminal()
  {
    hide AgreesSoFar, HasCycle, OnlyAdmitted, PhaseOk;
    assert NodeOk(c, v, st.s[v], TaskAt(st.tasks, v), st.calls[v], st.cancelled, StageOf(st.phase));
  }

  // ----- Freedom from deadlock -----

  /** Steps the environment may take but need not. */
  predicate IsExternal(a: Action) {
    a.Cancel? || a.TimeOut? || a.Drop? || a.Interrupt?
  }

  ghost predicate IsOver(st: State) {
    st.phase.Ended? && st.tasks == map[]
  }

  lemma TaskCanStep(c: Config, st: State, v: NodeId) returns (a: Action)
    requires Inv(c, st) && v in st.tasks && st.phase.Joining?
    ensures Enabled(c, st, a) && !IsExternal(a)
  {
    hide Inv, Covers, SkipAll, IsWave;
    NamedNodesExist(c, st);
    TasksWithinLimit(c, st);
    a := match st.tasks[v]
      case Waiting => Acquire(v)
      case Attempting(_) => if st.cancelled then Notice(v) else Poll(v)
      case Polled(_) => Invoke(v)
      case Calling(_) => Answer(v)
      case Deciding(_) => Record(v)
      case _ => Action.Join(v);
    if st.tasks[v].Waiting? && c.limit.Some? {
      assert v !in Holders(st.tasks);
      SubsetCardinality(Holders(st.tasks), st.tasks.Keys);
    }
  }

  lemma WaveExists(c: Config, st: State) returns (wave: seq<NodeId>)
    requires Inv(c, st) && st.phase.Planning?
    ensures Enabled(c, st, Plan(wave))
  {
    hide AgreesSoFar, OnlyAdmitted, NodesOk, HasCycle, Admitted;
    var s := SkipAll(c.edges, st.s);
    var ready := set v | v in s && IsReady(c.edges, s, v);
    var listed := Listing(ready);
    assert forall v :: v in listed <==> v in ready;
    wave := Truncate(listed, c.limit);
    assert forall v :: v in wave ==> v in listed;
    if wave == [] {
      assert c.limit != Some(0);
      assert listed == [];
    }
  }

  lemma {:induction false} Listing(nodes: set<NodeId>) returns (listed: seq<NodeId>)
    ensures Distinct(listed) && Elements(listed) == nodes
  {
    if nodes == {} {
      listed := [];
    } else {
      var v :| v in nodes;
      var rest := Listing(nodes - {v});
      assert v !in Elements(rest);
      listed := [v] + rest;
      assert Elements(listed) == {v} + Elements(rest);
    }
  }

  lemma NamedNodesExist(c: Config, st: State)
    requires Inv(c, st)
    ensures st.phase.Marking? ==> forall v :: v in st.phase.wave ==> v in st.s
    ensures st.phase.Spawning? ==> forall v :: v in st.phase.rest ==> v in st.s
    ensures forall v :: v in st.tasks ==> v in st.s && v in st.calls
    ensures Covers(c.edges, st.s)
  {
    hide AgreesSoFar, HasCycle, OnlyAdmitted, NodesOk, Admitted, Quiescent, IsComplete;
    assert forall v :: v in st.tasks.Keys ==> v in c.init.Keys;
  }

  /** Until a run is over, the executor itself can take a step: there is no deadlock. */
  lemma NoDeadlock(c: Config, st: State) returns (a: Action)
    requires Inv(c, st) && !IsOver(st)
    ensures Enabled(c, st, a) && !IsExternal(a)
  {
    hide Inv, Covers, SkipAll, IsWave;
    NamedNodesExist(c, st);
    ShapeHolds(c, st);
    match st.phase
    case Entering => a := Enter;
    case Planning =>
      var wave := WaveExists(c, st);
      a := Plan(wave);
    case Checking(_) => a := Check;
    case Marking(_) => a := Mark;
    case Spawning(_) => a := Spawn;
    case Joining =>
      if st.tasks == map[] {
        a := EndWave;
      } else {
        var v :| v in st.tasks;
        a := TaskCanStep(c, st, v);
      }
    case Leaving => a := Complete;
    case Closing(_) => a := Sweep;
    case Stopping(_) =>
      if st.tasks == map[] {
        a := Sweep;
      } else {
        var v :| v in st.tasks;
        a := Abort(v);
      }
    case Ended(_) =>
      var v :| v in st.tasks;
      a := Abort(v);
  }

  // ----- Termination -----

  ghost function WorkLeft(c: Config, v: NodeId, task: Task): (n: nat)
    ensures n > 0
  {
    match task
    case Waiting => 3 * c.retries(v) + 6
    case Attempting(k) => if k <= c.retries(v) then 3 * (c.retries(v) - k) + 5 else 1
    case Polled(k) => if k <= c.retries(v) then 3 * (c.retries(v) - k) + 4 else 1
    case Calling(k) => if k <= c.retries(v) then 3 * (c.retries(v) - k) + 3 else 1
    case Deciding(_) => 2
    case _ => 1
  }

  ghost function TotalWork(c: Config, tasks: map<NodeId, Task>): nat
    decreases tasks.Keys
  {
    if tasks == map[] then 0
    else
      var v :| v in tasks;
      WorkLeft(c, v, tasks[v]) + TotalWork(c, tasks - {v})
  }

  lemma {:induction false} TotalWorkSplits(c: Config, tasks: map<NodeId, Task>, w: NodeId)
    requires w in tasks
    ensures TotalWork(c, tasks) == WorkLeft(c, w, tasks[w]) + TotalWork(c, tasks - {w})
    decreases tasks.Keys
  {
    var v :| v in tasks && TotalWork(c, tasks) == WorkLeft(c, v, tasks[v]) + TotalWork(c, tasks - {v});
    if v != w {
      TotalWorkSplits(c, tasks - {v}, w);
      TotalWorkSplits(c, tasks - {w}, v);
      assert tasks - {v} - {w} == tasks - {w} - {v};
    }
  }

  datatype Measure = Measure(pendings: nat, phase: nat, rest: nat, work: nat, quiet: nat)

  predicate Below(m: Measure, n: Measure) {
    || m.pendings < n.pendings
    || (m.pendings == n.pendings && m.phase < n.phase)
    || (m.pendings == n.pendings && m.phase == n.phase && m.rest < n.rest)
    || (m.pendings == n.pendings && m.phase == n.phase && m.rest == n.rest && m.work < n.work)
    || (m.pendings == n.pendings && m.phase == n.phase && m.rest == n.rest && m.work == n.work && m.quiet < n.quiet)
  }

  function PhaseRank(phase: Phase): nat {
    match phase
    case Entering => 9
    case Spawning(_) => 8
    case Joining => 7
    case Planning => 6
    case Checking(_) => 5
    case Marking(_) => 4
    case Leaving => 4
    case Closing(_) => 3
    case Stopping(why) => if why.CallerGone? then 1 else 2
    case Ended(_) => 0
  }

  ghost function MeasureOf(c: Config, st: State): Measure {
    Measure(|Pendings(st.s)|, PhaseRank(st.phase), if st.phase.Spawning? then |st.phase.rest| else 0,
            TotalWork(c, st.tasks), if st.cancelled then 0 else 1)
  }

  lemma OneTaskLess(c: Config, tasks: map<NodeId, Task>, r: map<NodeId, Task>, w: NodeId)
    requires w in tasks && r - {w} == tasks - {w}
    requires w in r ==> WorkLeft(c, w, r[w]) < WorkLeft(c, w, tasks[w])
    ensures TotalWork(c, r) < TotalWork(c, tasks)
  {
    TotalWorkSplits(c, tasks, w);
    if w in r {
      TotalWorkSplits(c, r, w);
    } else {
      assert r == r - {w};
    }
  }

  /** Each step of a task leaves it less to do. */
  lemma TaskStepLowers(c: Config, st: State, a: Action, w: NodeId)
    requires Inv(c, st) && Enabled(c, st, a)
    requires a == Acquire(w) || a == Poll(w) || a == Invoke(w) || a == Answer(w) || a == Notice(w) ||
             a == Record(w) || a == Action.Join(w) || a == Abort(w)
    ensures TotalWork(c, Apply(c, st, a).tasks) < TotalWork(c, st.tasks)
  {
    hide Inv, Covers, SkipAll, TotalWork;
    TaskIsInRange(c, st, w);
    ShapeHolds(c, st);
    var r := Apply(c, st, a);
    assert r.tasks - {w} == st.tasks - {w};
    OneTaskLess(c, st.tasks, r.tasks, w);
  }

  lemma TaskIsInRange(c: Config, st: State, w: NodeId)
    requires Inv(c, st) && w in st.tasks
    ensures st.tasks[w].Attempting? || st.tasks[w].Polled? || st.tasks[w].Calling? ==> st.tasks[w].k <= c.retries(w)
  {
    hide AgreesSoFar, HasCycle, OnlyAdmitted, PhaseOk;
    assert w in c.init;
    assert NodeOk(c, w, st.s[w], TaskAt(st.tasks, w), st.calls[w], st.cancelled, StageOf(st.phase));
  }

  lemma PendingsNeverGrow(c: Config, st: State, a: Action)
    requires Inv(c, st) && Enabled(c, st, a)
    ensures |Pendings(Apply(c, st, a).s)| <= |Pendings(st.s)|
    ensures a.Mark? ==> |Pendings(Apply(c, st, a).s)| < |Pendings(st.s)|
  {
    hide Inv, Covers, Enabled, Apply, Pendings;
    ShapeHolds(c, st);
    if MovesNodes(a) {
      MovesNeverGrow(c, st, a);
    } else {
      OthersKeepStates(c, st, a);
    }
  }

  lemma MovesNeverGrow(c: Config, st: State, a: Action)
    requires Inv(c, st) && Covers(c.edges, st.s) && Enabled(c, st, a) && MovesNodes(a)
    ensures |Pendings(Apply(c, st, a).s)| <= |Pendings(st.s)|
    ensures a.Mark? ==> |Pendings(Apply(c, st, a).s)| < |Pendings(st.s)|
  {
    hide Inv, Covers, SkipAll, IsWave, Holders, ProgressOf, AfterCall, Pendings, HasOutputEdge;
    ShapeHolds(c, st);
    var r := Apply(c, st, a);
    match a {
      case Plan(_) => SkipAllOnlySkips(c.edges, st.s);
      case Mark => MarkConsumes(c, st, r);
      case Record(v) =>
        EndIsRecordable(c, st, v);
        SkipAllOnlySkips(c.edges, st.s[v := st.tasks[v].end]);
      case Join(v) =>
        SkipAllOnlySkips(c.edges, st.s[v := Failed]);
      case _ =>
    }
    FewerPendings(st.s, r.s);
  }

  predicate IsTaskStep(a: Action) {
    a.Acquire? || a.Poll? || a.Invoke? || a.Answer? || a.Notice? || a.Record? || a.Join? || a.Abort?
  }

  lemma DriverStepLowers(c: Config, st: State, a: Action)
    requires Inv(c, st) && Enabled(c, st, a) && !IsTaskStep(a)
    ensures Below(MeasureOf(c, Apply(c, st, a)), MeasureOf(c, st))
  {
    hide Inv, Covers, SkipAll, Pendings, TotalWork, IsWave, Holders, ProgressOf, AfterCall;
    ShapeHolds(c, st);
    PendingsNeverGrow(c, st, a);
  }

  lemma TaskStepBelow(c: Config, st: State, a: Action, w: NodeId)
    requires Inv(c, st) && Enabled(c, st, a)
    requires a == Acquire(w) || a == Poll(w) || a == Invoke(w) || a == Answer(w) || a == Notice(w) ||
             a == Record(w) || a == Action.Join(w) || a == Abort(w)
    ensures Below(MeasureOf(c, Apply(c, st, a)), MeasureOf(c, st))
  {
    hide Inv, Covers, SkipAll, Pendings, TotalWork, IsWave, Holders, ProgressOf, AfterCall, MarkedComplete;
    ShapeHolds(c, st);
    PendingsNeverGrow(c, st, a);
    TaskStepLowers(c, st, a, w);
  }

  /** Every step, the environment's included, lowers the measure. */
  lemma StepsLowerMeasure(c: Config, st: State, a: Action)
    requires Inv(c, st) && Enabled(c, st, a)
    ensures Below(MeasureOf(c, Apply(c, st, a)), MeasureOf(c, st))
  {
    hide Inv, Covers, Enabled, Apply, MeasureOf, Below;
    ShapeHolds(c, st);
    match a {
      case Acquire(v) => TaskStepBelow(c, st, a, v);
      case Poll(v) => TaskStepBelow(c, st, a, v);
      case Invoke(v) => TaskStepBelow(c, st, a, v);
      case Answer(v) => TaskStepBelow(c, st, a, v);
      case Notice(v) => TaskStepBelow(c, st, a, v);
      case Record(v) => TaskStepBelow(c, st, a, v);
      case Join(v) => TaskStepBelow(c, st, a, v);
      case Abort(v) => TaskStepBelow(c, st, a, v);
      case _ => DriverStepLowers(c, st, a);
    }
  }

  ghost predicate StepsOn(c: Config, run: nat -> State, steps: nat -> Action, i: nat) {
    IsStep(c, run(i), steps(i), run(i + 1))
  }

  lemma {:induction false} RunStopsFrom(c: Config, run: nat -> State, steps: nat -> Action, i: nat) returns (n: nat)
    requires Inv(c, run(i))
    ensures !StepsOn(c, run, steps, n)
    decreases MeasureOf(c, run(i)).pendings, MeasureOf(c, run(i)).phase, MeasureOf(c, run(i)).rest,
              MeasureOf(c, run(i)).work, MeasureOf(c, run(i)).quiet
  {
    hide Inv, Enabled, MeasureOf;
    n := i;
    if StepsOn(c, run, steps, i) {
      StepKeeps(c, run(i), steps(i));
      StepsLowerMeasure(c, run(i), steps(i));
      n := RunStopsFrom(c, run, steps, i + 1);
    }
  }

  /** No run goes on forever. */
  lemma EveryRunStops(c: Config, run: nat -> State, steps: nat -> Action)
    requires c.Proper() && run(0) == Start(c)
    ensures exists n :: !StepsOn(c, run, steps, n)
  {
    StartHolds(c);
    var n := RunStopsFrom(c, run, steps, 0);
  }

  // ----- Runs that are left alone return normally -----

  /** The reason for which a run stops is one that occurred. */
  ghost predicate StopIsJustified(c: Config, st: State, steps: seq<Action>) {
    && (st.phase.Stopping? ==> HasReason(c, st.cancelled, steps, st.phase.why))
    && (st.phase.Ended? && st.phase.ending.Stopped? ==> HasReason(c, st.cancelled, steps, st.phase.ending.why))
  }

  ghost predicate HasReason(c: Config, cancelled: bool, steps: seq<Action>, why: Interruption) {
    match why
    case TokenCancelled => cancelled && Cancel in steps
    case TimedOut => c.timed && TimeOut in steps
    case NoConcurrency => c.limit == Some(0)
    case CallerGone => Drop in steps
  }

  lemma {:induction false} StopsAreJustified(c: Config, run: seq<State>, steps: seq<Action>, i: nat)
    requires IsRun(c, run, steps) && i < |run|
    ensures StopIsJustified(c, run[i], steps[..i]) && (run[i].cancelled ==> Cancel in steps[..i])
  {
    hide Enabled, Apply;
    if i > 0 {
      StopsAreJustified(c, run, steps, i - 1);
      assert IsStep(c, run[i - 1], steps[i - 1], run[i - 1 + 1]);
      assert steps[..i] == steps[..i - 1] + [steps[i - 1]];
      OneMoreReason(c, run[i - 1], steps[i - 1], steps[..i - 1]);
    }
  }

  lemma OneMoreReason(c: Config, st: State, a: Action, steps: seq<Action>)
    requires Covers(c.edges, st.s) && Enabled(c, st, a)
    requires StopIsJustified(c, st, steps) && (st.cancelled ==> Cancel in steps)
    ensures StopIsJustified(c, Apply(c, st, a), steps + [a])
    ensures Apply(c, st, a).cancelled ==> Cancel in steps + [a]
  {
    hide SkipAll, IsWave, Covers, HasReason, ProgressOf, HasOutputEdge;
    ReasonsStay(c, st.cancelled, steps, a);
    assert a in steps + [a];
  }

  lemma ReasonsStay(c: Config, cancelled: bool, steps: seq<Action>, a: Action)
    ensures forall why :: HasReason(c, cancelled, steps, why) ==>
              HasReason(c, cancelled, steps + [a], why) && HasReason(c, true, steps + [a], why)
    ensures a.Drop? ==> HasReason(c, cancelled, steps + [a], CallerGone)
    ensures a.TimeOut? && c.timed ==> HasReason(c, cancelled, steps + [a], TimedOut)
    ensures cancelled && Cancel in steps ==> HasReason(c, cancelled, steps + [a], TokenCancelled)
    ensures c.limit == Some(0) ==> HasReason(c, cancelled, steps + [a], NoConcurrency)
  {
    assert a in steps + [a];
  }

  /** A run that is over, was not cancelled, timed out or abandoned, and had a positive
      limit and no output conditions, has returned normally: with `EveryRunStops` and
      `NoDeadlock`, every such execution ends in the final states. */
  lemma UndisturbedRunFinishes(c: Config, run: seq<State>, steps: seq<Action>)
    requires IsRun(c, run, steps) && IsOver(run[|run| - 1])
    requires Cancel !in steps && TimeOut !in steps && Drop !in steps
    requires c.limit != Some(0) && !HasOutputEdge(c.edges)
    ensures EndsFinished(run)
  {
    hide AgreesSoFar, HasCycle, OnlyAdmitted, NodesOk;
    RunKeepsInv(c, run, steps, |run| - 1);
    StopsAreJustified(c, run, steps, |run| - 1);
    assert steps[..|run| - 1] == steps;
  }

  // ----- Such runs exist -----

  /** A run can be carried on, by steps of the executor alone, until it is over. */
  lemma {:induction false} CarryOn(c: Config, run: seq<State>, steps: seq<Action>)
    returns (whole: seq<State>, taken: seq<Action>)
    requires IsRun(c, run, steps)
    ensures IsRun(c, whole, taken) && IsOver(whole[|whole| - 1])
    ensures run <= whole && steps <= taken && forall a :: a in taken ==> a in steps || !IsExternal(a)
    decreases MeasureOf(c, run[|run| - 1]).pendings, MeasureOf(c, run[|run| - 1]).phase,
              MeasureOf(c, run[|run| - 1]).rest, MeasureOf(c, run[|run| - 1]).work,
              MeasureOf(c, run[|run| - 1]).quiet
  {
    hide Inv, Enabled, MeasureOf, IsOver;
    var last := run[|run| - 1];
    if IsOver(last) {
      whole, taken := run, steps;
    } else {
      RunKeepsInv(c, run, steps, |run| - 1);
      var a := NoDeadlock(c, last);
      ShapeHolds(c, last);
      StepsLowerMeasure(c, last, a);
      OneStepMore(c, run, steps, a);
      whole, taken := CarryOn(c, run + [Apply(c, last, a)], steps + [a]);
    }
  }

  lemma OneStepMore(c: Config, run: seq<State>, steps: seq<Action>, a: Action)
    requires IsRun(c, run, steps)
    requires Covers(c.edges, run[|run| - 1].s) && Enabled(c, run[|run| - 1], a)
    ensures IsRun(c, run + [Apply(c, run[|run| - 1], a)], steps + [a])
  {
    hide Enabled, Covers, Apply;
    var last := run[|run| - 1];
    var longer, more := run + [Apply(c, last, a)], steps + [a];
    forall i | 0 <= i < |more| ensures IsStep(c, longer[i], more[i], longer[i + 1]) {
      if i < |steps| {
        assert IsStep(c, run[i], steps[i], run[i + 1]);
      }
    }
  }

  /** Every acyclic graph without output conditions, under any positive limit, has a run
      that returns normally: the theorems about such runs are never empty. */
  lemma NormalRunExists(c: Config) returns (run: seq<State>, steps: seq<Action>)
    requires c.Proper() && c.limit != Some(0) && !HasOutputEdge(c.edges)
    ensures IsRun(c, run, steps) && EndsFinished(run)
  {
    hide Inv, Enabled, HasOutputEdge;
    run, steps := CarryOn(c, [Start(c)], []);
    assert IsExternal(Cancel) && IsExternal(TimeOut) && IsExternal(Drop);
    UndisturbedRunFinishes(c, run, steps);
  }
}
