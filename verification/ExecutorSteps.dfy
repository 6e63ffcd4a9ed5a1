/** Every step of the executor keeps its invariant. */
module ExecutorSteps {
  import opened Prelude
  import opened Nodes
  import opened Edges
  import opened Topology
  import opened Propagation
  import opened Outcomes
  import opened Planning
  import opened ExecutorProtocol

  // ----- How the parts of the invariant survive -----

  /** Finished nodes stay as they are and unfinished ones stay so or are skipped. */
  ghost predicate OnlySkips(s: States, t: States) {
    s.Keys == t.Keys && forall v :: v in s ==> t[v] == s[v] || (s[v].Pending? && t[v].Skipped?)
  }

  lemma SkipAllOnlySkips(edges: seq<Edge>, s: States)
    requires Covers(edges, s)
    ensures OnlySkips(s, SkipAll(edges, s)) && KeepsFinished(s, SkipAll(edges, s))
  {
    SkipAllKeepsFinished(edges, s);
  }

  lemma FewerPendings(s: States, t: States)
    requires s.Keys == t.Keys && forall v :: v in s && t[v].Pending? ==> s[v].Pending?
    ensures |Pendings(t)| <= |Pendings(s)|
  {
    SubsetCardinality(Pendings(t), Pendings(s));
  }

  lemma OnlyAdmittedStays(c: Config, st: State, r: State)
    requires Shaped(c, st) && Shaped(c, r) && OnlyAdmitted(c, st) && KeepsFinished(st.s, r.s)
    requires forall v :: v in c.init && (v in r.tasks || r.calls[v] > 0) ==>
               v in st.tasks || st.calls[v] > 0 || Admitted(c.edges, st.s, v)
    ensures OnlyAdmitted(c, r)
  {
    forall v | v in c.init && (v in r.tasks || r.calls[v] > 0) ensures Admitted(c.edges, r.s, v) {
      AdmissionIsStable(c.edges, st.s, r.s, v);
    }
  }

  /** A step that leaves node states, tasks and calls alone keeps every node in order. */
  lemma PhaseChangeKeepsNodes(c: Config, st: State, r: State)
    requires Shaped(c, st) && NodesOk(c, st) && OnlyAdmitted(c, st)
    requires r.s == st.s && r.tasks == st.tasks && r.calls == st.calls
    requires st.cancelled ==> r.cancelled
    requires StageOf(st.phase) == StageOf(r.phase) || (StageOf(st.phase).Working? && StageOf(r.phase).Halting?)
    ensures Shaped(c, r) && NodesOk(c, r) && OnlyAdmitted(c, r)
  {
    forall v | v in c.init
      ensures NodeOk(c, v, r.s[v], TaskAt(r.tasks, v), r.calls[v], r.cancelled, StageOf(r.phase))
    {
      assert NodeOk(c, v, st.s[v], TaskAt(st.tasks, v), st.calls[v], st.cancelled, StageOf(st.phase));
    }
  }

  /** A step of the task of `w` keeps every node in order if it keeps `w` so. */
  lemma TaskChangeKeepsNodes(c: Config, st: State, r: State, w: NodeId)
    requires Shaped(c, st) && NodesOk(c, st) && Shaped(c, r)
    requires OnlySkips(st.s[w := Pending], r.s[w := Pending]) && w in st.tasks
    requires st.tasks - {w} == r.tasks - {w} && st.calls - {w} == r.calls - {w}
    requires r.cancelled == st.cancelled && r.phase == st.phase
    requires NodeOk(c, w, r.s[w], TaskAt(r.tasks, w), r.calls[w], r.cancelled, StageOf(r.phase))
    ensures NodesOk(c, r)
  {
    forall v | v in c.init && v != w
      ensures NodeOk(c, v, r.s[v], TaskAt(r.tasks, v), r.calls[v], r.cancelled, StageOf(r.phase))
    {
      assert NodeOk(c, v, st.s[v], TaskAt(st.tasks, v), st.calls[v], st.cancelled, StageOf(st.phase));
      assert v in st.tasks <==> v in st.tasks - {w};
      assert v in r.tasks <==> v in r.tasks - {w};
      assert (st.calls - {w})[v] == (r.calls - {w})[v];
      assert st.s[w := Pending][v] == st.s[v] && r.s[w := Pending][v] == r.s[v];
    }
  }

  // ----- Steps that change the phase only -----

  lemma PhaseStepKeepsRest(c: Config, st: State, r: State)
    requires Inv(c, st) && r.s == st.s && r.tasks == st.tasks && r.calls == st.calls
    requires r.cancelled == st.cancelled || (r.cancelled && r.phase == st.phase)
    requires StageOf(st.phase) == StageOf(r.phase) || (StageOf(st.phase).Working? && StageOf(r.phase).Halting?)
    requires WavesBegun(r) <= WavesBegun(st) && PhaseOk(c, r)
    ensures Inv(c, r)
  {
    PhaseChangeKeepsNodes(c, st, r);
  }

  lemma EnterKeeps(c: Config, st: State)
    requires Inv(c, st) && Enabled(c, st, Enter)
    ensures Inv(c, Apply(c, st, Enter))
  {
    PhaseStepKeepsRest(c, st, Apply(c, st, Enter));
  }

  lemma CheckKeeps(c: Config, st: State)
    requires Inv(c, st) && Enabled(c, st, Check)
    ensures Inv(c, Apply(c, st, Check))
  {
    hide AgreesSoFar, OnlyAdmitted, NodesOk, HasCycle;
    PhaseStepKeepsRest(c, st, Apply(c, st, Check));
  }

  lemma EndWaveKeeps(c: Config, st: State)
    requires Inv(c, st) && Enabled(c, st, EndWave)
    ensures Inv(c, Apply(c, st, EndWave))
  {
    PhaseStepKeepsRest(c, st, Apply(c, st, EndWave));
  }

  lemma StopKeeps(c: Config, st: State, why: Interruption)
    requires Inv(c, st) && (st.phase.IsActive() || st.phase.Stopping?)
    ensures Inv(c, st.(phase := Stopping(why)))
  {
    hide NodesOk, OnlyAdmitted, HasCycle, AgreesSoFar, IsWave, ReadyAre, RestAdmitted, Quiescent, IsComplete, Pendings;
    if st.phase.Spawning? {
      assert |st.tasks| <= |st.tasks| + |st.phase.rest|;
    }
    assert WithinLimit(c, |st.tasks|);
    PhaseStepKeepsRest(c, st, st.(phase := Stopping(why)));
  }

  lemma CancelKeeps(c: Config, st: State)
    requires Inv(c, st) && Enabled(c, st, Cancel)
    ensures Inv(c, Apply(c, st, Cancel))
  {
    hide OnlyAdmitted, NodesOk, HasCycle, IsComplete, Quiescent;
    var r := Apply(c, st, Cancel);
    if st.phase.Ended? && st.phase.ending.Finished? {
      var s :| CompletedBefore(c, st, s, st.phase.ending.progress);
      assert CompletedBefore(c, r, s, r.phase.ending.progress);
    }
    PhaseStepKeepsRest(c, st, r);
  }

  lemma ShapeHolds(c: Config, st: State)
    requires Inv(c, st)
    ensures st.s.Keys == st.calls.Keys == c.init.Keys && Covers(c.edges, st.s) && Covers(c.edges, c.init)
  {
  }

  lemma LeftNodeIsFinal(c: Config, st: State, rank: map<NodeId, nat>, v: NodeId)
    requires Inv(c, st) && st.phase.Leaving? && !st.cancelled && Ranked(c.edges, rank) && v in st.s
    ensures st.s[v] == Final(c.edges, rank, c.init, WorkOf(c), v)
    ensures st.calls[v] == if c.init[v].Pending? && (st.s[v].Succeeded? || st.s[v].Failed?) then c.Calls(v) else 0
  {
    hide OnlyAdmitted, HasCycle, Final, Quiescent, Agrees, Ranked;
    assert NodeOk(c, v, st.s[v], TaskAt(st.tasks, v), st.calls[v], st.cancelled, StageOf(st.phase));
    QuiescentIsFinal(c.edges, rank, c.init, WorkOf(c), st.s, v);
  }

  /** With no wave left and no cancellation, every node is in its final state. */
  lemma LeavingIsComplete(c: Config, st: State)
    requires Inv(c, st) && st.phase.Leaving? && !st.cancelled
    ensures IsComplete(c, st.s, st.calls)
  {
    hide Inv, Covers, Final, Ranked;
    ShapeHolds(c, st);
    forall rank, v | Ranked(c.edges, rank) && v in st.s
      ensures st.s[v] == Final(c.edges, rank, c.init, WorkOf(c), v)
      ensures st.calls[v] == if c.init[v].Pending? && (st.s[v].Succeeded? || st.s[v].Failed?) then c.Calls(v) else 0
    {
      LeftNodeIsFinal(c, st, rank, v);
    }
  }

  lemma CompleteKeeps(c: Config, st: State)
    requires Inv(c, st) && Enabled(c, st, Complete)
    ensures Inv(c, Apply(c, st, Complete))
  {
    hide AgreesSoFar, OnlyAdmitted, NodesOk, HasCycle, IsComplete, Quiescent;
    if !st.cancelled {
      LeavingIsComplete(c, st);
    }
    PhaseStepKeepsRest(c, st, Apply(c, st, Complete));
  }

  // ----- Planning, marking and spawning -----

  lemma PlanKeepsNodes(c: Config, st: State, r: State)
    requires Inv(c, st) && st.phase.Planning? && Shaped(c, r) && StageOf(r.phase).Working?
    requires r == st.(s := SkipAll(c.edges, st.s), phase := r.phase)
    ensures NodesOk(c, r) && OnlyAdmitted(c, r)
  {
    hide Agrees, AgreesSoFar, Admitted, HasCycle, SkipAll;
    SkipAllOnlySkips(c.edges, st.s);
    forall v | v in c.init
      ensures NodeOk(c, v, r.s[v], TaskAt(r.tasks, v), r.calls[v], r.cancelled, StageOf(r.phase))
    {
      assert NodeOk(c, v, st.s[v], TaskAt(st.tasks, v), st.calls[v], st.cancelled, StageOf(st.phase));
    }
    OnlyAdmittedStays(c, st, r);
  }

  lemma PlanMakesNoneReady(c: Config, s: States)
    requires c.Proper() && s.Keys == c.init.Keys && ReadyAre(c, s, [])
    ensures ReadyAre(c, SkipAll(c.edges, s), [])
  {
    hide HasCycle, SkipAll;
    SkipAllOnlySkips(c.edges, s);
  }

  lemma PlanKeepsPhase(c: Config, st: State, r: State, wave: seq<NodeId>)
    requires Inv(c, st) && Enabled(c, st, Plan(wave)) && Shaped(c, r) && r == Apply(c, st, Plan(wave))
    ensures PhaseOk(c, r)
  {
    hide AgreesSoFar, NodesOk, HasCycle, SkipAll, Quiescent, OnlyAdmitted, ReadyAre, IsWave, Pendings;
    PlanMakesNoneReady(c, st.s);
    if wave == [] {
      PlannedOut(c, st);
    }
  }

  lemma PlanKeeps(c: Config, st: State, wave: seq<NodeId>)
    requires Inv(c, st) && Enabled(c, st, Plan(wave))
    ensures Inv(c, Apply(c, st, Plan(wave)))
  {
    hide NodesOk, OnlyAdmitted, PhaseOk, AgreesSoFar, IsWave, Pendings, SkipAll;
    var r := Apply(c, st, Plan(wave));
    PlanKeepsNodes(c, st, r);
    PlanKeepsPhase(c, st, r, wave);
    PlanKeepsAgreement(c, st, r);
    SkipAllOnlySkips(c.edges, st.s);
    FewerPendings(st.s, r.s);
  }

  lemma PlanKeepsAgreement(c: Config, st: State, r: State)
    requires Inv(c, st) && st.phase.Planning? && Shaped(c, r)
    requires r == st.(s := SkipAll(c.edges, st.s), phase := r.phase)
    ensures AgreesSoFar(c, r)
  {
    if !st.cancelled {
      forall rank | Ranked(c.edges, rank)
        ensures Agrees(c.edges, rank, c.init, WorkOf(c), SkipAll(c.edges, st.s))
      {
        SkipAllAgrees(c.edges, rank, c.init, WorkOf(c), st.s);
      }
    }
  }

  /** Without a ready node after skips were propagated, no progress is possible. */
  lemma PlannedOut(c: Config, st: State)
    requires Inv(c, st) && st.phase.Planning?
    requires IsWave(c.edges, SkipAll(c.edges, st.s), c.limit, [])
    ensures Quiescent(c.edges, c.init, SkipAll(c.edges, st.s))
  {
    var s := SkipAll(c.edges, st.s);
    SkipAllIsFixpoint(c.edges, st.s);
    SkipAllOnlySkips(c.edges, st.s);
    forall v | v in s && !s[v].IsTerminal() && !s[v].Pending? ensures s[v] == c.init[v] {
      assert NodeOk(c, v, st.s[v], TaskAt(st.tasks, v), st.calls[v], st.cancelled, StageOf(st.phase));
    }
  }

  lemma PendingNodeIsMarked(c: Config, v: NodeId, x: NodeState, task: Option<Task>, calls: nat, cancelled: bool)
    requires v in c.init && NodeOk(c, v, x, task, calls, cancelled, Working)
    ensures x.Pending? ==> c.init[v].Pending? && NodeOk(c, v, Ready, task, calls, cancelled, Working)
  {
  }

  lemma MarkKeepsNodes(c: Config, st: State, r: State)
    requires Inv(c, st) && st.phase.Marking? && Shaped(c, r)
    requires r == st.(s := AllReady(st.s, st.phase.wave), phase := Spawning(st.phase.wave))
    ensures NodesOk(c, r) && OnlyAdmitted(c, r) && ReadyAre(c, r.s, st.phase.wave)
  {
    hide Agrees, AgreesSoFar, Admitted, HasCycle, NodeOk;
    forall v | v in c.init
      ensures NodeOk(c, v, r.s[v], TaskAt(r.tasks, v), r.calls[v], r.cancelled, StageOf(r.phase))
      ensures c.init[v].Pending? && r.s[v].Ready? <==> v in st.phase.wave
    {
      assert NodeOk(c, v, st.s[v], TaskAt(st.tasks, v), st.calls[v], st.cancelled, StageOf(st.phase));
      assert v in st.phase.wave ==> IsReady(c.edges, st.s, v);
      PendingNodeIsMarked(c, v, st.s[v], TaskAt(st.tasks, v), st.calls[v], st.cancelled);
    }
    OnlyAdmittedStays(c, st, r);
  }

  lemma MarkKeepsPhase(c: Config, st: State, r: State)
    requires Inv(c, st) && st.phase.Marking? && Shaped(c, r)
    requires r == st.(s := AllReady(st.s, st.phase.wave), phase := Spawning(st.phase.wave))
    requires ReadyAre(c, r.s, st.phase.wave)
    ensures PhaseOk(c, r)
  {
    hide AgreesSoFar, HasCycle, NodesOk, OnlyAdmitted, Quiescent, ReadyAre, RestAdmitted;
    MarkedRest(c, st.s, st.phase.wave);
    assert |r.tasks| == 0;
  }

  /** Marking a wave uses up at least one pending node. */
  lemma MarkConsumes(c: Config, st: State, r: State)
    requires Inv(c, st) && st.phase.Marking?
    requires r == st.(s := AllReady(st.s, st.phase.wave), phase := Spawning(st.phase.wave))
    ensures WavesBegun(r) + |Pendings(r.s)| <= |Pendings(c.init)| && |Pendings(r.s)| < |Pendings(st.s)|
  {
    hide AgreesSoFar, HasCycle, NodesOk, OnlyAdmitted, Quiescent, ReadyAre;
    var v := st.phase.wave[0];
    assert IsReady(c.edges, st.s, v);
    assert v in Pendings(st.s) && v !in Pendings(r.s);
    SubsetCardinality(Pendings(r.s), Pendings(st.s));
  }

  lemma MarkKeeps(c: Config, st: State)
    requires Inv(c, st) && Enabled(c, st, Mark)
    ensures Inv(c, Apply(c, st, Mark))
  {
    hide NodesOk, OnlyAdmitted, PhaseOk, AgreesSoFar, IsWave, Pendings;
    var r := Apply(c, st, Mark);
    MarkKeepsNodes(c, st, r);
    MarkKeepsPhase(c, st, r);
    MarkConsumes(c, st, r);
    MarkKeepsAgreement(c, st, r);
  }

  lemma MarkedRest(c: Config, s: States, wave: seq<NodeId>)
    requires Covers(c.edges, s) && IsWave(c.edges, s, c.limit, wave)
    ensures RestAdmitted(c, AllReady(s, wave), map[], wave)
  {
    forall v | v in wave ensures Admitted(c.edges, AllReady(s, wave), v) {
      assert IsReady(c.edges, s, v);
      AdmissionIsStable(c.edges, s, AllReady(s, wave), v);
    }
  }

  lemma ReadyAgrees(c: Config, rank: map<NodeId, nat>, s: States, wave: seq<NodeId>)
    requires Covers(c.edges, c.init) && Ranked(c.edges, rank) && s.Keys == c.init.Keys
    requires Agrees(c.edges, rank, c.init, WorkOf(c), s)
    ensures Agrees(c.edges, rank, c.init, WorkOf(c), AllReady(s, wave))
  {
    hide Covers, Ranked, Final;
    var r := AllReady(s, wave);
    forall v | v in r && !c.init[v].Pending? ensures r[v] == c.init[v] {
      assert s[v] == c.init[v];
    }
  }

  lemma MarkKeepsAgreement(c: Config, st: State, r: State)
    requires Inv(c, st) && Shaped(c, r) && st.phase.Marking? && r.s == AllReady(st.s, st.phase.wave)
    requires r.cancelled == st.cancelled
    ensures AgreesSoFar(c, r)
  {
    hide NodesOk, OnlyAdmitted, HasCycle, PhaseOk, Ranked, Pendings, Covers;
    if !r.cancelled {
      forall rank | Ranked(c.edges, rank) ensures Agrees(c.edges, rank, c.init, WorkOf(c), r.s) {
        ReadyAgrees(c, rank, st.s, st.phase.wave);
      }
    }
  }

  lemma SpawnKeeps(c: Config, st: State)
    requires Inv(c, st) && Enabled(c, st, Spawn)
    ensures Inv(c, Apply(c, st, Spawn))
  {
    hide AgreesSoFar, OnlyAdmitted, NodesOk, HasCycle;
    var r := Apply(c, st, Spawn);
    if st.phase.rest == [] {
      PhaseStepKeepsRest(c, st, r);
    } else {
      SpawnOneKeeps(c, st, st.phase.rest[0], st.phase.rest[1..]);
    }
  }

  /** The state after the task of `w` was spawned and `rest` is left. */
  function Spawned(st: State, w: NodeId, rest: seq<NodeId>): State {
    st.(s := st.s[w := Running], tasks := st.tasks[w := Waiting], phase := Spawning(rest))
  }

  lemma ReadyNodeStarts(c: Config, v: NodeId, task: Option<Task>, calls: nat, cancelled: bool)
    requires v in c.init && c.init[v].Pending? && NodeOk(c, v, Ready, task, calls, cancelled, Working)
    ensures NodeOk(c, v, Running, Some(Waiting), calls, cancelled, Working)
  {
  }

  lemma NextIsReady(c: Config, st: State, w: NodeId, rest: seq<NodeId>)
    requires Inv(c, st) && st.phase == Spawning([w] + rest) && w in st.s
    ensures c.init[w].Pending? && st.s[w].Ready?
  {
    hide NodesOk, OnlyAdmitted, HasCycle, AgreesSoFar, RestAdmitted;
    assert w in [w] + rest;
  }

  lemma SpawnKeepsNodes(c: Config, st: State, w: NodeId, rest: seq<NodeId>)
    requires Inv(c, st) && st.phase == Spawning([w] + rest) && w in st.s
    ensures NodesOk(c, Spawned(st, w, rest)) && OnlyAdmitted(c, Spawned(st, w, rest))
  {
    hide AgreesSoFar, Admitted, HasCycle, NodeOk, ReadyAre, Pendings;
    NextIsReady(c, st, w, rest);
    var r := Spawned(st, w, rest);
    assert w in [w] + rest;
    forall v | v in c.init
      ensures NodeOk(c, v, r.s[v], TaskAt(r.tasks, v), r.calls[v], r.cancelled, StageOf(r.phase))
    {
      assert NodeOk(c, v, st.s[v], TaskAt(st.tasks, v), st.calls[v], st.cancelled, StageOf(st.phase));
      if v == w {
        ReadyNodeStarts(c, v, TaskAt(st.tasks, v), st.calls[v], st.cancelled);
      }
    }
    OnlyAdmittedStays(c, st, r);
  }

  lemma UnfinishedMoveAgrees(c: Config, rank: map<NodeId, nat>, s: States, w: NodeId, x: NodeState)
    requires c.Proper() && Ranked(c.edges, rank) && Agrees(c.edges, rank, c.init, WorkOf(c), s)
    requires w in s && c.init[w].Pending? && !x.IsTerminal()
    ensures Agrees(c.edges, rank, c.init, WorkOf(c), s[w := x])
  {
  }

  lemma SpawnKeepsAgreement(c: Config, st: State, w: NodeId, rest: seq<NodeId>)
    requires Inv(c, st) && st.phase == Spawning([w] + rest) && w in st.s
    ensures AgreesSoFar(c, Spawned(st, w, rest)) && Pendings(st.s[w := Running]) == Pendings(st.s)
  {
    hide Agrees, NodesOk, OnlyAdmitted, HasCycle, RestAdmitted;
    assert w in [w] + rest;
    assert c.init[w].Pending? && st.s[w].Ready?;
    forall rank | Ranked(c.edges, rank) && !st.cancelled
      ensures Agrees(c.edges, rank, c.init, WorkOf(c), st.s[w := Running])
    {
      UnfinishedMoveAgrees(c, rank, st.s, w, Running);
    }
  }

  lemma SpawnOneKeeps(c: Config, st: State, w: NodeId, rest: seq<NodeId>)
    requires Inv(c, st) && st.phase == Spawning([w] + rest) && w in st.s
    ensures Inv(c, Spawned(st, w, rest))
  {
    hide NodesOk, OnlyAdmitted, PhaseOk, AgreesSoFar, Pendings;
    assert Shaped(c, Spawned(st, w, rest));
    SpawnKeepsNodes(c, st, w, rest);
    SpawnKeepsRest(c, st, w, rest);
    SpawnKeepsAgreement(c, st, w, rest);
  }

  lemma RestShrinks(c: Config, s: States, tasks: map<NodeId, Task>, w: NodeId, rest: seq<NodeId>)
    requires Covers(c.edges, s) && s.Keys == c.init.Keys && w in s
    requires RestAdmitted(c, s, tasks, [w] + rest) && ReadyAre(c, s, [w] + rest)
    ensures RestAdmitted(c, s[w := Running], tasks[w := Waiting], rest) && ReadyAre(c, s[w := Running], rest)
  {
    hide Admitted;
    var all := [w] + rest;
    assert w in all && all[0] == w;
    assert forall i :: 0 <= i < |rest| ==> rest[i] == all[i + 1];
    forall v | v in rest ensures v in all && v != w && Admitted(c.edges, s[w := Running], v) {
      var i :| 0 <= i < |rest| && rest[i] == v;
      AdmissionIsStable(c.edges, s, s[w := Running], v);
    }
    assert forall v :: v in all <==> v == w || v in rest;
  }

  lemma SpawnKeepsRest(c: Config, st: State, w: NodeId, rest: seq<NodeId>)
    requires Inv(c, st) && st.phase == Spawning([w] + rest) && w in st.s
    ensures PhaseOk(c, Spawned(st, w, rest))
  {
    hide AgreesSoFar, HasCycle, NodesOk, OnlyAdmitted, ReadyAre;
    RestShrinks(c, st.s, st.tasks, w, rest);
    assert w in [w] + rest;
    assert st.tasks[w := Waiting].Keys == st.tasks.Keys + {w};
    assert |st.tasks[w := Waiting]| == |st.tasks.Keys + {w}| == |st.tasks| + 1;
  }

  // ----- Steps of tasks -----

  lemma FewerTasks(tasks: map<NodeId, Task>, v: NodeId)
    ensures |tasks - {v}| <= |tasks|
  {
    assert (tasks - {v}).Keys == tasks.Keys - {v};
    SubsetCardinality(tasks.Keys - {v}, tasks.Keys);
  }

  /** A step of one task that leaves node states and the phase alone. */
  lemma TaskStepKeeps(c: Config, st: State, r: State, w: NodeId)
    requires Inv(c, st) && w in st.tasks
    requires r == st.(tasks := r.tasks, calls := r.calls)
    requires r.tasks.Keys == st.tasks.Keys || (r.tasks == st.tasks - {w} && (st.phase.Stopping? || st.phase.Ended?))
    requires r.calls.Keys == st.calls.Keys
    requires st.tasks - {w} == r.tasks - {w} && st.calls - {w} == r.calls - {w}
    requires NodeOk(c, w, r.s[w], TaskAt(r.tasks, w), r.calls[w], r.cancelled, StageOf(r.phase))
    ensures Inv(c, r)
  {
    hide Agrees, Admitted, HasCycle, NodeOk, NodesOk, OnlyAdmitted, PhaseOk;
    TaskChangeKeepsNodes(c, st, r, w);
    assert forall v :: v in r.tasks ==> v in st.tasks;
    forall v | v in c.init && r.calls[v] > 0 ensures v in st.tasks || st.calls[v] > 0 {
      if v != w {
        assert (st.calls - {w})[v] == (r.calls - {w})[v];
      }
    }
    OnlyAdmittedStays(c, st, r);
    FewerTasks(st.tasks, w);
    assert |r.tasks| <= |st.tasks| by {
      if r.tasks.Keys == st.tasks.Keys {
        assert |r.tasks| == |r.tasks.Keys| == |st.tasks.Keys| == |st.tasks|;
      }
    }
    TaskStepKeepsPhase(c, st, r, w);
  }

  lemma TaskStepKeepsPhase(c: Config, st: State, r: State, w: NodeId)
    requires Inv(c, st) && w in st.tasks && Shaped(c, r)
    requires r == st.(tasks := r.tasks, calls := r.calls)
    requires r.tasks.Keys <= st.tasks.Keys && |r.tasks| <= |st.tasks|
    ensures PhaseOk(c, r)
  {
    assert st.tasks != map[];
  }

  /** What the invariant says about the node of a task. */
  lemma TaskIsOk(c: Config, st: State, v: NodeId)
    requires Inv(c, st) && v in st.tasks
    ensures v in c.init && v in st.s && v in st.calls
    ensures NodeOk(c, v, st.s[v], Some(st.tasks[v]), st.calls[v], st.cancelled, StageOf(st.phase))
    ensures st.phase.Ended? ==> st.phase.IsSwept()
  {
    hide NodeOk, OnlyAdmitted, AgreesSoFar, HasCycle;
    assert v in c.init;
    assert TaskAt(st.tasks, v) == Some(st.tasks[v]);
  }

  lemma UpdatedElsewhere<V>(m: map<NodeId, V>, v: NodeId, x: V)
    requires v in m
    ensures m[v := x] - {v} == m - {v} && m[v := x].Keys == m.Keys
  {
  }

  lemma AbortKeeps(c: Config, st: State, v: NodeId)
    requires Inv(c, st) && v in st.tasks && (st.phase.Stopping? || st.phase.Ended?)
    ensures Inv(c, st.(tasks := st.tasks - {v}))
  {
    hide Inv;
    TaskIsOk(c, st, v);
    TaskStepKeeps(c, st, st.(tasks := st.tasks - {v}), v);
  }

  /** The task of `v` moves on to `task`; nothing else changes. */
  lemma MoveKeeps(c: Config, st: State, v: NodeId, task: Task)
    requires Inv(c, st) && v in st.tasks && v in st.calls && !st.tasks[v].Recorded? && !task.Recorded?
    requires TaskOk(c, v, st.tasks[v], st.calls[v], st.cancelled) ==> TaskOk(c, v, task, st.calls[v], st.cancelled)
    ensures Inv(c, st.(tasks := st.tasks[v := task]))
  {
    hide Inv, TaskOk, RestOk;
    TaskIsOk(c, st, v);
    UpdatedElsewhere(st.tasks, v, task);
    TaskStepKeeps(c, st, st.(tasks := st.tasks[v := task]), v);
  }

  lemma InvokeKeeps(c: Config, st: State, v: NodeId)
    requires Inv(c, st) && v in st.tasks && v in st.calls && st.tasks[v].Polled?
    ensures Inv(c, st.(tasks := st.tasks[v := Calling(st.tasks[v].k)], calls := st.calls[v := st.calls[v] + 1]))
  {
    hide Inv, Undecided, RestOk;
    TaskIsOk(c, st, v);
    UpdatedElsewhere(st.tasks, v, Calling(st.tasks[v].k));
    UpdatedElsewhere(st.calls, v, st.calls[v] + 1);
    TaskStepKeeps(c, st,
      st.(tasks := st.tasks[v := Calling(st.tasks[v].k)], calls := st.calls[v := st.calls[v] + 1]), v);
  }

  lemma CallDecides(c: Config, v: NodeId, k: nat, calls: nat, cancelled: bool)
    requires TaskOk(c, v, Calling(k), calls, cancelled)
    ensures TaskOk(c, v, AfterCall(c, v, k), calls, cancelled)
  {
  }

  lemma TaskStepsKeep(c: Config, st: State, v: NodeId)
    requires Inv(c, st) && v in st.tasks && v in st.calls
    ensures st.tasks[v].Waiting? ==> Inv(c, st.(tasks := st.tasks[v := Attempting(0)]))
    ensures st.tasks[v].Attempting? ==> Inv(c, st.(tasks := st.tasks[v := Polled(st.tasks[v].k)]))
    ensures st.tasks[v].Calling? ==> Inv(c, st.(tasks := st.tasks[v := AfterCall(c, v, st.tasks[v].k)]))
    ensures (st.tasks[v].Attempting? || st.tasks[v].Calling?) && st.cancelled ==>
              Inv(c, st.(tasks := st.tasks[v := Deciding(Cancelled)]))
  {
    hide Inv;
    match st.tasks[v] {
      case Waiting => MoveKeeps(c, st, v, Attempting(0));
      case Calling(k) =>
        if TaskOk(c, v, st.tasks[v], st.calls[v], st.cancelled) {
          CallDecides(c, v, k, st.calls[v], st.cancelled);
        }
        MoveKeeps(c, st, v, AfterCall(c, v, k));
        if st.cancelled {
          MoveKeeps(c, st, v, Deciding(Cancelled));
        }
      case Attempting(k) =>
        MoveKeeps(c, st, v, Polled(k));
        if st.cancelled {
          MoveKeeps(c, st, v, Deciding(Cancelled));
        }
      case _ =>
    }
  }

  // ----- Recording the end of a task -----

  /** The node of a task ends in `end`, and its task becomes `task` or goes. */
  ghost predicate Finishes(c: Config, st: State, r: State, w: NodeId, end: NodeState)
    requires Covers(c.edges, st.s)
  {
    && w in st.tasks && w in st.s && st.s[w].Running? && end.IsTerminal()
    && r == st.(s := MarkedComplete(c.edges, st.s, w, end), tasks := r.tasks)
    && (r.tasks == st.tasks[w := Recorded] || (r.tasks == st.tasks - {w} && st.phase.Joining?))
  }

  lemma EndedStates(edges: seq<Edge>, s: States, w: NodeId, end: NodeState)
    requires Covers(edges, s) && w in s && s[w].Running? && end.IsTerminal()
    ensures var r := MarkedComplete(edges, s, w, end);
            && r[w] == end && KeepsFinished(s, r) && OnlySkips(s[w := Pending], r[w := Pending])
            && |Pendings(r)| <= |Pendings(s)|
  {
    SkipAllOnlySkips(edges, s[w := end]);
    FewerPendings(s, MarkedComplete(edges, s, w, end));
  }

  lemma FinishKeepsNodes(c: Config, st: State, r: State, w: NodeId, end: NodeState)
    requires Inv(c, st) && Shaped(c, r) && Finishes(c, st, r, w, end)
    requires RestOk(c, w, end, st.calls[w], st.cancelled, StageOf(st.phase)) && c.init[w].Pending?
    ensures NodesOk(c, r)
  {
    hide AgreesSoFar, Admitted, HasCycle, SkipAll, RestOk, NodesOk, PhaseOk, OnlyAdmitted;
    EndedStates(c.edges, st.s, w, end);
    assert r.s[w] == end;
    assert NodeOk(c, w, r.s[w], TaskAt(r.tasks, w), r.calls[w], r.cancelled, StageOf(r.phase));
    assert r.tasks - {w} == st.tasks - {w};
    TaskChangeKeepsNodes(c, st, r, w);
  }

  lemma FinishKeepsAdmission(c: Config, st: State, r: State, w: NodeId, end: NodeState)
    requires Inv(c, st) && Shaped(c, r) && Finishes(c, st, r, w, end)
    ensures OnlyAdmitted(c, r)
  {
    hide AgreesSoFar, Admitted, HasCycle, SkipAll, NodesOk, PhaseOk;
    EndedStates(c.edges, st.s, w, end);
    OnlyAdmittedStays(c, st, r);
  }

  lemma FinishKeeps(c: Config, st: State, r: State, w: NodeId, end: NodeState)
    requires Inv(c, st) && Finishes(c, st, r, w, end)
    requires RestOk(c, w, end, st.calls[w], st.cancelled, StageOf(st.phase)) && c.init[w].Pending?
    requires !st.cancelled ==> end == c.Work(w)
    ensures Inv(c, r)
  {
    hide NodesOk, OnlyAdmitted, PhaseOk, AgreesSoFar, Pendings, SkipAll, RestOk;
    FinishKeepsNodes(c, st, r, w, end);
    FinishKeepsAdmission(c, st, r, w, end);
    FinishKeepsAgreement(c, st, r, w, end);
    EndedStates(c.edges, st.s, w, end);
    assert r.tasks.Keys <= st.tasks.Keys;
    SubsetCardinality(r.tasks.Keys, st.tasks.Keys);
    FinishKeepsPhase(c, st, r, w, end);
  }

  lemma FinishKeepsAgreement(c: Config, st: State, r: State, w: NodeId, end: NodeState)
    requires Inv(c, st) && Shaped(c, r) && Finishes(c, st, r, w, end) && c.init[w].Pending?
    requires !st.cancelled ==> end == c.Work(w)
    ensures AgreesSoFar(c, r)
  {
    if !st.cancelled && !st.phase.IsSwept() {
      forall rank | Ranked(c.edges, rank) ensures Agrees(c.edges, rank, c.init, WorkOf(c), r.s) {
        CompletionAgrees(c.edges, rank, c.init, WorkOf(c), st.s, w);
      }
    }
  }

  lemma EndKeepsReady(c: Config, s: States, r: States, w: NodeId, rest: seq<NodeId>)
    requires s.Keys == c.init.Keys == r.Keys && w in s && ReadyAre(c, s, rest)
    requires s[w].Running? && r[w].IsTerminal() && OnlySkips(s[w := Pending], r[w := Pending])
    ensures ReadyAre(c, r, rest)
  {
    forall v | v in r ensures c.init[v].Pending? && r[v].Ready? <==> v in rest {
      assert r[w := Pending][v] == s[w := Pending][v] || r[w := Pending][v].Skipped?;
    }
  }

  lemma EndKeepsRest(
      c: Config, s: States, r: States, tasks: map<NodeId, Task>, fewer: map<NodeId, Task>, rest: seq<NodeId>)
    requires Covers(c.edges, s) && KeepsFinished(s, r) && fewer.Keys <= tasks.Keys
    requires RestAdmitted(c, s, tasks, rest)
    ensures RestAdmitted(c, r, fewer, rest)
  {
    hide Admitted;
    forall v | v in rest ensures Admitted(c.edges, r, v) && v !in fewer {
      AdmissionIsStable(c.edges, s, r, v);
      assert v !in tasks.Keys;
    }
  }

  lemma FinishKeepsPhase(c: Config, st: State, r: State, w: NodeId, end: NodeState)
    requires Inv(c, st) && Shaped(c, r) && Finishes(c, st, r, w, end) && c.init[w].Pending?
    requires |r.tasks| <= |st.tasks| && r.tasks.Keys <= st.tasks.Keys
    ensures PhaseOk(c, r)
  {
    hide AgreesSoFar, HasCycle, Quiescent, IsComplete, OnlyAdmitted, NodesOk, SkipAll, ReadyAre, RestAdmitted,
      OnlySkips, Covers;
    ShapeCovers(c, st);
    EndedStates(c.edges, st.s, w, end);
    RunningTaskPhase(c, st, w);
    assert st.tasks != map[];
    if st.phase.Spawning? {
      EndKeepsReady(c, st.s, r.s, w, st.phase.rest);
      EndKeepsRest(c, st.s, r.s, st.tasks, r.tasks, st.phase.rest);
    } else if st.phase.Joining? {
      EndKeepsReady(c, st.s, r.s, w, []);
    }
  }

  lemma ShapeCovers(c: Config, st: State)
    requires Inv(c, st)
    ensures Covers(c.edges, st.s)
  {
    hide AgreesSoFar, NodesOk, OnlyAdmitted, PhaseOk, HasCycle;
  }

  /** A pending-born node runs only before the final sweep. */
  lemma RunningTaskPhase(c: Config, st: State, w: NodeId)
    requires Inv(c, st) && w in st.tasks && w in st.s && st.s[w].Running?
    ensures !st.phase.IsSwept()
  {
    hide AgreesSoFar, OnlyAdmitted, PhaseOk, HasCycle;
    assert w in c.init;
    assert NodeOk(c, w, st.s[w], TaskAt(st.tasks, w), st.calls[w], st.cancelled, StageOf(st.phase));
  }

  /** What a task holds when it is about to record its end. */
  lemma EndIsRecordable(c: Config, st: State, v: NodeId)
    requires Inv(c, st) && v in st.tasks && (st.tasks[v].Deciding? || st.tasks[v].Panicked?)
    ensures v in c.init && c.init[v].Pending? && (st.s[v].Running? || st.s[v].Cancelled?)
    ensures st.s[v].Cancelled? ==> NodeOk(c, v, st.s[v], Some(Recorded), st.calls[v], st.cancelled, StageOf(st.phase))
    ensures var end := if st.tasks[v].Panicked? then Failed else st.tasks[v].end;
            && end.IsTerminal() && (!st.cancelled ==> end == c.Work(v))
            && RestOk(c, v, end, st.calls[v], st.cancelled, StageOf(st.phase))
  {
    hide Agrees, AgreesSoFar, Admitted, HasCycle, PhaseOk;
    assert v in c.init;
    assert NodeOk(c, v, st.s[v], TaskAt(st.tasks, v), st.calls[v], st.cancelled, StageOf(st.phase));
  }

  lemma RecordKeeps(c: Config, st: State, v: NodeId)
    requires Inv(c, st) && Enabled(c, st, Record(v))
    ensures Inv(c, Apply(c, st, Record(v)))
  {
    hide NodesOk, OnlyAdmitted, PhaseOk, AgreesSoFar, RestOk, NodeOk;
    var r := Apply(c, st, Record(v));
    EndIsRecordable(c, st, v);
    if st.s[v].Cancelled? {
      TaskStepKeeps(c, st, r, v);
    } else {
      FinishKeeps(c, st, r, v, st.tasks[v].end);
    }
  }

  lemma JoinRecordedKeepsNodes(c: Config, st: State, r: State, v: NodeId)
    requires Inv(c, st) && Shaped(c, r) && v in st.tasks && st.tasks[v].Recorded?
    requires r == st.(tasks := st.tasks - {v})
    ensures NodesOk(c, r) && OnlyAdmitted(c, r)
  {
    hide AgreesSoFar, Admitted, HasCycle, PhaseOk;
    assert NodeOk(c, v, st.s[v], TaskAt(st.tasks, v), st.calls[v], st.cancelled, StageOf(st.phase));
    TaskChangeKeepsNodes(c, st, r, v);
    OnlyAdmittedStays(c, st, r);
  }

  lemma JoinRecordedKeeps(c: Config, st: State, v: NodeId)
    requires Inv(c, st) && st.phase.Joining? && v in st.tasks && st.tasks[v].Recorded?
    ensures Inv(c, st.(tasks := st.tasks - {v}))
  {
    hide NodesOk, OnlyAdmitted, Agrees, HasCycle, NodeOk;
    JoinRecordedKeepsNodes(c, st, st.(tasks := st.tasks - {v}), v);
    FewerTasks(st.tasks, v);
  }

  lemma JoinKeeps(c: Config, st: State, v: NodeId)
    requires Inv(c, st) && Enabled(c, st, Action.Join(v))
    ensures Inv(c, Apply(c, st, Action.Join(v)))
  {
    hide NodesOk, OnlyAdmitted, AgreesSoFar, RestOk, NodeOk;
    if st.tasks[v].Panicked? {
      EndIsRecordable(c, st, v);
      JoinedNodeRuns(c, st, v);
      FinishKeeps(c, st, Apply(c, st, Action.Join(v)), v, Failed);
    } else {
      JoinRecordedKeeps(c, st, v);
    }
  }

  lemma JoinedNodeRuns(c: Config, st: State, v: NodeId)
    requires Inv(c, st) && st.phase.Joining? && v in st.tasks && st.tasks[v].Panicked?
    ensures st.s[v].Running?
  {
    assert NodeOk(c, v, st.s[v], TaskAt(st.tasks, v), st.calls[v], st.cancelled, StageOf(st.phase));
  }

  // ----- The final sweep -----

  lemma SweepKeepsNodes(c: Config, st: State, r: State)
    requires Inv(c, st) && Shaped(c, r) && (st.phase.Closing? || st.phase.Stopping?)
    requires r == st.(s := CancelRemaining(st.s), phase := r.phase) && StageOf(r.phase).Swept?
    ensures NodesOk(c, r) && OnlyAdmitted(c, r)
  {
    hide Agrees, AgreesSoFar, Admitted, HasCycle, PhaseOk;
    forall v | v in c.init
      ensures NodeOk(c, v, r.s[v], TaskAt(r.tasks, v), r.calls[v], r.cancelled, StageOf(r.phase))
    {
      assert NodeOk(c, v, st.s[v], TaskAt(st.tasks, v), st.calls[v], st.cancelled, StageOf(st.phase));
    }
    OnlyAdmittedStays(c, st, r);
  }

  lemma SweepKeeps(c: Config, st: State)
    requires Inv(c, st) && Enabled(c, st, Sweep)
    ensures Inv(c, Apply(c, st, Sweep))
  {
    hide NodesOk, OnlyAdmitted, PhaseOk, Pendings, HasCycle, Agrees;
    var r := Apply(c, st, Sweep);
    SweepKeepsNodes(c, st, r);
    SweepKeepsPhase(c, st, r);
    FewerPendings(st.s, r.s);
  }

  lemma SweepKeepsPhase(c: Config, st: State, r: State)
    requires Inv(c, st) && Enabled(c, st, Sweep) && Shaped(c, r) && r == Apply(c, st, Sweep)
    ensures PhaseOk(c, r)
  {
    hide NodesOk, OnlyAdmitted, Pendings, NodeOk, IsComplete, HasCycle, AgreesSoFar, Quiescent;
    if st.phase.Closing? {
      assert CompletedBefore(c, r, st.s, st.phase.progress);
    }
  }

  // ----- All steps -----

  /** The invariant holds at the start. */
  lemma StartHolds(c: Config)
    requires c.Proper()
    ensures Inv(c, Start(c))
  {
    forall rank | Ranked(c.edges, rank) ensures Agrees(c.edges, rank, c.init, WorkOf(c), c.init) {
      InitialAgrees(c.edges, rank, c.init, WorkOf(c));
    }
  }

  lemma TaskHasCalls(c: Config, st: State, v: NodeId)
    requires Inv(c, st) && v in st.tasks
    ensures v in st.calls
  {
    assert v in c.init;
  }

  /** Every step keeps the invariant. */
  lemma StepKeeps(c: Config, st: State, a: Action)
    requires Inv(c, st) && Enabled(c, st, a)
    ensures Inv(c, Apply(c, st, a))
  {
    hide Inv;
    match a
    case Enter => EnterKeeps(c, st);
    case Plan(wave) => PlanKeeps(c, st, wave);
    case Check => CheckKeeps(c, st);
    case Mark => MarkKeeps(c, st);
    case Spawn => SpawnKeeps(c, st);
    case Join(v) => JoinKeeps(c, st, v);
    case EndWave => EndWaveKeeps(c, st);
    case Complete => CompleteKeeps(c, st);
    case Interrupt => StopKeeps(c, st, TokenCancelled);
    case TimeOut => StopKeeps(c, st, TimedOut);
    case Drop => StopKeeps(c, st, CallerGone);
    case Abort(v) => AbortKeeps(c, st, v);
    case Sweep => SweepKeeps(c, st);
    case Acquire(v) =>
      TaskHasCalls(c, st, v);
      TaskStepsKeep(c, st, v);
    case Poll(v) =>
      TaskHasCalls(c, st, v);
      TaskStepsKeep(c, st, v);
    case Invoke(v) => InvokeKeeps(c, st, v);
    case Answer(v) =>
      TaskHasCalls(c, st, v);
      TaskStepsKeep(c, st, v);
    case Notice(v) =>
      TaskHasCalls(c, st, v);
      TaskStepsKeep(c, st, v);
    case Record(v) => RecordKeeps(c, st, v);
    case Cancel => CancelKeeps(c, st);
  }
}
