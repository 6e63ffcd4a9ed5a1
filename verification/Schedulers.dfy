/** The wave scheduler: groups the nodes of a graph into waves by simulating their success. */
module Schedulers {
  import opened Prelude
  import opened Nodes
  import opened Edges
  import opened Propagation
  import opened DiGraphs
  import opened ExecutionGraphs
  import opened Ordering
  import opened Planning

  datatype Wave = Wave(waveNumber: nat, nodes: seq<NodeId>, estimatedDuration: nat)

  datatype ExecutionPlan = ExecutionPlan(waves: seq<Wave>, totalEstimatedDuration: nat)

  /** The greatest estimate among the nodes that have one. */
  function MaxEstimate(m: map<NodeId, Node>, nodes: seq<NodeId>): (r: Option<nat>)
    requires forall v :: v in nodes ==> v in m
    ensures r.None? <==> forall v :: v in nodes ==> m[v].estimatedDuration.None?
    ensures r.Some? ==> exists v :: v in nodes && m[v].estimatedDuration == r
    ensures forall v :: v in nodes && m[v].estimatedDuration.Some? ==>
            r.Some? && m[v].estimatedDuration.value <= r.value
  {
    if nodes == [] then None
    else
      var first, rest := m[nodes[0]].estimatedDuration, MaxEstimate(m, nodes[1..]);
      assert forall v :: v in nodes <==> v == nodes[0] || v in nodes[1..];
      match (first, rest)
      case (None, _) => rest
      case (Some(_), None) => first
      case (Some(a), Some(b)) => if a < b then rest else first
  }

  /** A wave takes as long as its longest estimate, or a second when none is given. */
  function WaveEstimate(m: map<NodeId, Node>, nodes: seq<NodeId>): nat
    requires forall v :: v in nodes ==> v in m
  {
    var e := MaxEstimate(m, nodes);
    if e.Some? then e.value else TICKS_PER_SECOND
  }

  /** The waves of a plan, without numbers and durations. */
  function NodesOf(waves: seq<Wave>): (plan: seq<seq<NodeId>>)
    ensures |plan| == |waves| && forall i :: 0 <= i < |plan| ==> plan[i] == waves[i].nodes
  {
    seq(|waves|, i requires 0 <= i < |waves| => waves[i].nodes)
  }

  /** Two node tables that differ at most in states and recorded durations. */
  ghost predicate SameAttributes(m: map<NodeId, Node>, r: map<NodeId, Node>) {
    m.Keys == r.Keys
    && forall v :: v in m ==> r[v] == m[v].(state := r[v].state, actualDuration := r[v].actualDuration)
  }

  lemma {:induction false} InsertIgnoresStates(
      m: map<NodeId, Node>, r: map<NodeId, Node>, x: NodeId, sorted: seq<NodeId>)
    requires SameAttributes(m, r) && x in m && forall v :: v in sorted ==> v in m
    ensures Insert(m, x, sorted) == Insert(r, x, sorted)
  {
    if sorted != [] {
      assert sorted[0] in sorted;
      InsertIgnoresStates(m, r, x, sorted[1..]);
    }
  }

  lemma {:induction false} SortIgnoresStates(m: map<NodeId, Node>, r: map<NodeId, Node>, ready: seq<NodeId>)
    requires SameAttributes(m, r) && forall v :: v in ready ==> v in m
    ensures SortReady(m, ready) == SortReady(r, ready)
  {
    if ready != [] {
      SortIgnoresStates(m, r, ready[1..]);
      InsertIgnoresStates(m, r, ready[0], SortReady(m, ready[1..]));
    }
  }

  lemma {:induction false} EstimateIgnoresStates(m: map<NodeId, Node>, r: map<NodeId, Node>, nodes: seq<NodeId>)
    requires SameAttributes(m, r) && forall v :: v in nodes ==> v in m
    ensures MaxEstimate(m, nodes) == MaxEstimate(r, nodes)
  {
    if nodes != [] {
      assert nodes[0] in nodes;
      EstimateIgnoresStates(m, r, nodes[1..]);
    }
  }

  lemma {:induction false} PlanIgnoresStates(
      m: map<NodeId, Node>, r: map<NodeId, Node>, edges: seq<Edge>, s: States, order: seq<NodeId>,
      limit: Option<nat>)
    requires Plannable(m, edges, s, order) && SameAttributes(m, r)
    ensures NextWave(m, edges, s, order, limit) == NextWave(r, edges, s, order, limit)
  {
    OrderedNodesExist(m, edges, s, order);
    SortIgnoresStates(m, r, ReadyList(order, edges, s));
  }

  // ----- The graph's ready list is the planner's -----

  lemma {:induction false} ReadyListSnoc(order: seq<NodeId>, v: NodeId, edges: seq<Edge>, s: States)
    requires Covers(edges, s) && v in s && forall u :: u in order ==> u in s
    ensures ReadyList(order + [v], edges, s) == ReadyList(order, edges, s) + if IsReady(edges, s, v) then [v] else []
  {
    if order == [] {
      assert order + [v] == [v];
    } else {
      assert (order + [v])[1..] == order[1..] + [v];
      ReadyListSnoc(order[1..], v, edges, s);
    }
  }

  lemma IdsAreIndexed(g: DiGraph, indexMap: map<NodeId, nat>)
    requires Indexed(g.nodes, indexMap)
    ensures forall v :: v in Ids(g.nodes) <==> v in indexMap
  {
    forall v | v in Ids(g.nodes) ensures v in indexMap {
      var i := IndexOf(Ids(g.nodes), v);
    }
    forall v | v in indexMap ensures v in Ids(g.nodes) {
      assert Ids(g.nodes)[indexMap[v]] == v;
    }
  }

  lemma {:induction false} ReadyIdsAreList(g: DiGraph, indexMap: map<NodeId, nat>, n: nat)
    requires Rep(g, indexMap) && n <= |g.nodes|
    requires Covers(Weights(g.arcs), StatesOf(Lookup(g, indexMap))) && forall v :: v in Ids(g.nodes) ==> v in indexMap
    ensures ReadyIds(g, n) == ReadyList(Ids(g.nodes)[..n], Weights(g.arcs), StatesOf(Lookup(g, indexMap)))
  {
    hide ReadyAt, IsReady, Covers;
    if n > 0 {
      ReadyIdsAreList(g, indexMap, n - 1);
      ReadyByIndex(g, indexMap, n - 1);
      hide Rep;
      assert Ids(g.nodes)[..n] == Ids(g.nodes)[..n - 1] + [g.nodes[n - 1].id];
      assert g.nodes[n - 1].id in Ids(g.nodes);
      ReadyListSnoc(Ids(g.nodes)[..n - 1], g.nodes[n - 1].id, Weights(g.arcs), StatesOf(Lookup(g, indexMap)));
    }
  }

  /** A sound graph can be planned, and its ready nodes are the planner's ready list. */
  lemma GraphIsPlannable(g: DiGraph, indexMap: map<NodeId, nat>)
    requires Rep(g, indexMap)
    ensures Plannable(Lookup(g, indexMap), Weights(g.arcs), StatesOf(Lookup(g, indexMap)), Ids(g.nodes))
    ensures forall v :: v in Ids(g.nodes) ==> v in indexMap
    ensures ReadyIds(g, |g.nodes|) == ReadyList(Ids(g.nodes), Weights(g.arcs), StatesOf(Lookup(g, indexMap)))
  {
    hide Covers, ReadyIds, ReadyList;
    RepCovers(g, indexMap);
    IdsAreIndexed(g, indexMap);
    ReadyIdsAreList(g, indexMap, |g.nodes|);
    assert Ids(g.nodes)[..|g.nodes|] == Ids(g.nodes);
  }

  lemma NoWaves(m: map<NodeId, Node>)
    ensures NodesOf([]) == [] && WellNumbered(m, []) && SumDurations([]) == 0
  {
  }

  lemma NothingToPlan(graph: ExecutionGraph, limit: Option<nat>)
    requires graph.Valid() && graph.NodeCount() == 0
    ensures Plannable(graph.nodes, graph.edges, graph.NodeStates(), graph.order)
    ensures PlanFrom(graph.nodes, graph.edges, graph.NodeStates(), graph.order, limit) == []
  {
    ValidIsPlannable(graph);
    var wave, t := PlanUnfolds(graph.nodes, graph.edges, graph.NodeStates(), graph.order, limit);
  }

  lemma SameAttributesChain(m: map<NodeId, Node>, r: map<NodeId, Node>, q: map<NodeId, Node>)
    ensures SameAttributes(m, m)
    ensures SameAttributes(m, r) && SameAttributes(r, q) ==> SameAttributes(m, q)
  {
  }

  lemma EndedAttributes(m: map<NodeId, Node>, r: map<NodeId, Node>, v: NodeId, s: States)
    requires SameAttributes(m, r) && s.Keys == r.Keys
    ensures SameAttributes(m, WithStates(Timed(r, v, None), s))
  {
  }

  lemma AfterWaveStep(edges: seq<Edge>, s: States, wave: seq<NodeId>, k: nat)
    requires Covers(edges, s) && k < |wave| && forall v :: v in wave ==> v in s
    ensures wave[k] in s && Covers(edges, s[wave[k] := Succeeded])
    ensures (forall v :: v in wave[k..] ==> v in s) && forall v :: v in wave[k + 1..] ==> v in s
    ensures AfterWave(edges, s, wave[k..]) == AfterWave(edges, SkipAll(edges, s[wave[k] := Succeeded]), wave[k + 1..])
  {
    assert wave[k..][0] == wave[k] && wave[k..][1..] == wave[k + 1..];
    assert wave[k] in wave;
  }

  lemma AppendWave(m: map<NodeId, Node>, waves: seq<Wave>, w: Wave, rest: seq<seq<NodeId>>, plan: seq<seq<NodeId>>)
    requires NodesOf(waves) + ([w.nodes] + rest) == plan
    requires WellNumbered(m, waves) && w.waveNumber == |waves|
    requires (forall v :: v in w.nodes ==> v in m) && w.estimatedDuration == WaveEstimate(m, w.nodes)
    ensures NodesOf(waves + [w]) + rest == plan && WellNumbered(m, waves + [w])
  {
    assert NodesOf(waves + [w]) == NodesOf(waves) + [w.nodes];
  }

  lemma ValidIsPlannable(graph: ExecutionGraph)
    requires graph.Valid()
    ensures Plannable(graph.nodes, graph.edges, graph.NodeStates(), graph.order)
    ensures |Pendings(graph.NodeStates())| <= graph.NodeCount()
    ensures SameAttributes(graph.nodes, graph.nodes)
  {
    GraphIsPlannable(graph.graph, graph.indexMap);
    ListedCardinality(graph.order, graph.NodeStates().Keys);
    SubsetCardinality(Pendings(graph.NodeStates()), graph.NodeStates().Keys);
  }

  // ----- The scheduler -----

  /** Completes the nodes of a wave as succeeded in a simulated graph. */
  method CompleteWave(sim: ExecutionGraph, wave: seq<NodeId>)
    requires sim.Valid() && Covers(sim.edges, sim.NodeStates())
    requires forall v :: v in wave ==> v in sim.NodeStates()
    modifies sim
    ensures sim.Valid() && sim.indexMap == old(sim.indexMap) && sim.edges == old(sim.edges)
    ensures sim.order == old(sim.order)
    ensures sim.NodeStates() == AfterWave(sim.edges, old(sim.NodeStates()), wave)
    ensures SameAttributes(old(sim.nodes), sim.nodes)
  {
    hide Sound, SkipAll, Covers, AfterWave, SameAttributes, StatesOf, IsReady;
    ghost var s := sim.NodeStates();
    assert wave[0..] == wave;
    SameAttributesChain(sim.nodes, sim.nodes, sim.nodes);
    for k := 0 to |wave|
      invariant sim.Valid() && sim.indexMap == old(sim.indexMap) && sim.edges == old(sim.edges)
      invariant sim.order == old(sim.order) && sim.nodes.Keys == old(sim.nodes.Keys)
      invariant SameAttributes(old(sim.nodes), sim.nodes)
      invariant Covers(sim.edges, sim.NodeStates()) && forall v :: v in wave[k..] ==> v in sim.NodeStates()
      invariant AfterWave(sim.edges, sim.NodeStates(), wave[k..]) == AfterWave(sim.edges, s, wave)
    {
      AfterWaveStep(sim.edges, sim.NodeStates(), wave, k);
      ghost var before := sim.nodes;
      var _ := sim.MarkComplete(wave[k], Succeeded, None);
      EndedAttributes(old(sim.nodes), before, wave[k], sim.NodeStates());
    }
    AfterNothing(sim.edges, sim.NodeStates(), wave);
  }

  lemma AfterNothing(edges: seq<Edge>, s: States, wave: seq<NodeId>)
    requires Covers(edges, s)
    ensures wave[|wave|..] == [] && AfterWave(edges, s, []) == s
  {
  }

  datatype WaveScheduler = WaveScheduler(maxConcurrency: Option<nat>) {

    /** Forms the next wave of a simulated graph. */
    method FormWave(sim: ExecutionGraph, ghost m: map<NodeId, Node>) returns (wave: seq<NodeId>, estimate: nat)
      requires sim.Valid() && SameAttributes(m, sim.nodes)
      ensures Plannable(m, sim.edges, sim.NodeStates(), sim.order)
      ensures wave == NextWave(m, sim.edges, sim.NodeStates(), sim.order, maxConcurrency)
      ensures (forall v :: v in wave ==> v in m) && estimate == WaveEstimate(m, wave)
    {
      GraphIsPlannable(sim.graph, sim.indexMap);
      var ready := sim.ReadyNodes();
      var table := Lookup(sim.graph, sim.indexMap);
      wave := Truncate(SortReady(table, ready), maxConcurrency);
      PlanIgnoresStates(m, sim.nodes, sim.edges, sim.NodeStates(), sim.order, maxConcurrency);
      NextWaveIsWave(m, sim.edges, sim.NodeStates(), sim.order, maxConcurrency);
      OrderedNodesExist(m, sim.edges, sim.NodeStates(), sim.order);
      EstimateIgnoresStates(m, sim.nodes, wave);
      estimate := WaveEstimate(table, wave);
    }

    /** What the planning loop keeps: the waves so far and the plan from the simulated
        states make up the whole plan. */
    ghost predicate Planned(
        sim: ExecutionGraph, m: map<NodeId, Node>, waves: seq<Wave>, plan: seq<seq<NodeId>>, bound: nat)
      reads sim
    {
      && sim.Valid() && SameAttributes(m, sim.nodes) && Plannable(m, sim.edges, sim.NodeStates(), sim.order)
      && |waves| + |Pendings(sim.NodeStates())| <= bound
      && WellNumbered(m, waves)
      && NodesOf(waves) + PlanFrom(m, sim.edges, sim.NodeStates(), sim.order, maxConcurrency) == plan
    }

    /** Plans one more wave and simulates its success; without a ready node the plan is done. */
    method PlanWave(
        sim: ExecutionGraph, waves: seq<Wave>, ghost m: map<NodeId, Node>, ghost plan: seq<seq<NodeId>>,
        ghost bound: nat)
      returns (more: bool, longer: seq<Wave>)
      requires Planned(sim, m, waves, plan, bound)
      modifies sim
      ensures Planned(sim, m, longer, plan, bound) && |longer| == |waves| + (if more then 1 else 0)
      ensures !more ==> NodesOf(longer) == plan && sim.NodeStates() == old(sim.NodeStates())
      ensures more ==> Pendings(sim.NodeStates()) < old(Pendings(sim.NodeStates()))
    {
      hide Sound, SkipAll, Covers, IsWave, NextWave, AfterWave, Plannable, SameAttributes, PlanFrom, WaveCompleted,
           Pendings, IsReady, WaveEstimate, StatesOf, WellNumbered, NodesOf;
      ghost var wave, t := PlanUnfolds(m, sim.edges, sim.NodeStates(), sim.order, maxConcurrency);
      var ready, estimate := FormWave(sim, m);
      longer := waves;
      more := ready != [];
      if more {
        ghost var table := sim.nodes;
        CompleteWave(sim, ready);
        SameAttributesChain(m, table, sim.nodes);
        var next := Wave(|waves|, ready, estimate);
        AppendWave(m, waves, next, PlanFrom(m, sim.edges, t, sim.order, maxConcurrency), plan);
        longer := waves + [next];
      }
    }

    /** Plans waves from the current states of `graph`, which it does not change. */
    method PlanWaves(graph: ExecutionGraph) returns (r: Result<ExecutionPlan, GraphError>)
      requires graph.Valid()
      ensures Plannable(graph.nodes, graph.edges, graph.NodeStates(), graph.order)
      ensures r.Err? <==> maxConcurrency == Some(0)
      ensures r.Err? ==> r.error.InvalidConfiguration?
      ensures r.Ok? ==> NodesOf(r.value.waves) ==
                        PlanFrom(graph.nodes, graph.edges, graph.NodeStates(), graph.order, maxConcurrency)
      ensures r.Ok? ==> WellNumbered(graph.nodes, r.value.waves)
      ensures r.Ok? ==> r.value.totalEstimatedDuration == SumDurations(r.value.waves)
      ensures r.Ok? ==>
                EachTakesFirst(graph.nodes, graph.edges, graph.NodeStates(), maxConcurrency, NodesOf(r.value.waves))
    {
      hide Sound, SkipAll, Covers, Plannable, SameAttributes, PlanFrom, Pendings, WellNumbered, NodesOf;
      hide EachTakesFirst;
      ValidIsPlannable(graph);
      PlanTakesFirst(graph.nodes, graph.edges, graph.NodeStates(), graph.order, maxConcurrency);
      if maxConcurrency == Some(0) {
        return Err(InvalidConfiguration("max concurrency must be positive"));
      }
      NoWaves(graph.nodes);
      if graph.NodeCount() == 0 {
        NothingToPlan(graph, maxConcurrency);
        return Ok(ExecutionPlan([], 0));
      }
      ghost var plan := PlanFrom(graph.nodes, graph.edges, graph.NodeStates(), graph.order, maxConcurrency);
      var sim := new ExecutionGraph.Clone(graph);
      var waves: seq<Wave> := [];
      var more := true;
      while more
        invariant fresh(sim) && Planned(sim, graph.nodes, waves, plan, graph.NodeCount())
        invariant !more ==> NodesOf(waves) == plan
        decreases Pendings(sim.NodeStates()), more
      {
        more, waves := PlanWave(sim, waves, graph.nodes, plan, graph.NodeCount());
        // The safety valve on the number of waves.
        if |waves| > graph.NodeCount() {
          break;
        }
      }
      r := Ok(ExecutionPlan(waves, SumDurations(waves)));
    }
  }

  function SumDurations(waves: seq<Wave>): nat {
    if waves == [] then 0 else SumDurations(waves[..|waves| - 1]) + waves[|waves| - 1].estimatedDuration
  }

  ghost predicate WellNumbered(m: map<NodeId, Node>, waves: seq<Wave>) {
    forall i :: 0 <= i < |waves| ==>
      && waves[i].waveNumber == i
      && (forall v :: v in waves[i].nodes ==> v in m)
      && waves[i].estimatedDuration == WaveEstimate(m, waves[i].nodes)
  }
}
