/** The critical path against the plan: a plan of fully estimated nodes takes at least as
    long as the critical path. */
module CriticalBounds {
  import opened Prelude
  import opened Nodes
  import opened Edges
  import opened Topology
  import opened Propagation
  import opened Planning
  import opened Schedulers
  import opened CriticalPaths

  /** Every node has its place in some wave. */
  ghost predicate AllPlanned(m: map<NodeId, Node>, waves: seq<Wave>) {
    forall v :: v in m ==> v in Flatten(NodesOf(waves))
  }

  /** A wave that holds nodes with and without an estimate has an estimate of at least the
      second that the others count for. */
  predicate EstimateSuffices(m: map<NodeId, Node>, nodes: seq<NodeId>)
    requires forall v :: v in nodes ==> v in m
  {
    (exists v :: v in nodes && m[v].estimatedDuration.Some?)
      && (exists v :: v in nodes && m[v].estimatedDuration.None?) ==>
      exists v :: v in nodes && m[v].estimatedDuration.Some? && m[v].estimatedDuration.value >= TICKS_PER_SECOND
  }

  ghost predicate EstimatesSuffice(m: map<NodeId, Node>, waves: seq<Wave>)
    requires WellNumbered(m, waves)
  {
    forall i :: 0 <= i < |waves| ==> EstimateSuffices(m, waves[i].nodes)
  }

  /** That is so exactly when no node of the wave outlasts it. */
  lemma SufficesIffNoneOutlasts(m: map<NodeId, Node>, nodes: seq<NodeId>)
    requires forall v :: v in nodes ==> v in m
    ensures EstimateSuffices(m, nodes) <==> forall v :: v in nodes ==> DurationOf(m, v) <= WaveEstimate(m, nodes)
  {
    if w :| w in nodes && m[w].estimatedDuration.None? {
      assert DurationOf(m, w) == TICKS_PER_SECOND;
    }
  }

  /** Estimates on every node suffice, and so do estimates on none. */
  lemma AllOrNoneSuffice(m: map<NodeId, Node>, waves: seq<Wave>)
    requires WellNumbered(m, waves)
    requires (forall v :: v in m ==> m[v].estimatedDuration.Some?)
             || (forall v :: v in m ==> m[v].estimatedDuration.None?)
    ensures EstimatesSuffice(m, waves)
  {
  }

  lemma {:induction false} LongerPrefixLastsLonger(waves: seq<Wave>, i: nat, j: nat)
    requires i <= j <= |waves|
    ensures SumDurations(waves[..i]) <= SumDurations(waves[..j])
  {
    if i < j {
      LongerPrefixLastsLonger(waves, i, j - 1);
      assert waves[..j][..j - 1] == waves[..j - 1];
    }
  }

  lemma WaveOf(m: map<NodeId, Node>, waves: seq<Wave>, v: NodeId) returns (i: nat)
    requires AllPlanned(m, waves) && v in m
    ensures i < |waves| && v in waves[i].nodes
  {
    FlattenHolds(NodesOf(waves));
    i :| 0 <= i < |NodesOf(waves)| && v in NodesOf(waves)[i];
  }

  lemma LinkGoesLater(edges: seq<Edge>, waves: seq<Wave>, u: NodeId, v: NodeId, j: nat, i: nat)
    requires RespectsEdges(edges, NodesOf(waves)) && Link(edges, u, v)
    requires j < |waves| && i < |waves| && u in waves[j].nodes && v in waves[i].nodes
    ensures j < i
  {
    var e :| e in edges && e.source == u && e.target == v;
    assert e.source in NodesOf(waves)[j] && e.target in NodesOf(waves)[i];
  }

  lemma WaveOutlasts(m: map<NodeId, Node>, waves: seq<Wave>, i: nat, v: NodeId)
    requires WellNumbered(m, waves) && EstimatesSuffice(m, waves) && i < |waves| && v in waves[i].nodes
    ensures v in m && DurationOf(m, v) <= waves[i].estimatedDuration
  {
    SufficesIffNoneOutlasts(m, waves[i].nodes);
  }

  lemma PrefixLasts(waves: seq<Wave>, i: nat)
    requires i < |waves|
    ensures SumDurations(waves[..i + 1]) == SumDurations(waves[..i]) + waves[i].estimatedDuration
  {
    assert waves[..i + 1][..i] == waves[..i];
  }

  /** A walk that ends in wave `i` is over when waves 0 to `i` are. */
  lemma {:induction false} WalkFitsPrefix(
      m: map<NodeId, Node>, edges: seq<Edge>, waves: seq<Wave>, p: seq<NodeId>, i: nat)
    requires WellNumbered(m, waves) && AllPlanned(m, waves) && EstimatesSuffice(m, waves)
    requires RespectsEdges(edges, NodesOf(waves))
    requires Walk(edges, p) && (forall v :: v in p ==> v in m)
    requires i < |waves| && p[|p| - 1] in waves[i].nodes
    ensures PathDuration(m, p) <= SumDurations(waves[..i + 1])
    decreases |p|
  {
    hide RespectsEdges, EstimatesSuffice, WellNumbered, AllPlanned, Link, DurationOf;
    var v, q := p[|p| - 1], p[..|p| - 1];
    WaveOutlasts(m, waves, i, v);
    PrefixLasts(waves, i);
    if q != [] {
      assert WalkTo(edges, m, p, v);
      ShortenWalk(edges, m, p, v);
      var u := q[|q| - 1];
      assert u in p;
      var j := WaveOf(m, waves, u);
      LinkGoesLater(edges, waves, u, v, j, i);
      WalkFitsPrefix(m, edges, waves, q, j);
      LongerPrefixLastsLonger(waves, j + 1, i);
    }
  }

  /** When every node is planned and the estimates suffice, no walk, so not the critical
      one either, lasts longer than the whole plan, whatever the concurrency limit. */
  lemma CriticalPathWithinPlan(
      m: map<NodeId, Node>, edges: seq<Edge>, s: States, order: seq<NodeId>, limit: Option<nat>,
      waves: seq<Wave>, p: seq<NodeId>)
    requires Plannable(m, edges, s, order) && NodesOf(waves) == PlanFrom(m, edges, s, order, limit)
    requires WellNumbered(m, waves) && AllPlanned(m, waves) && EstimatesSuffice(m, waves)
    requires Walk(edges, p) && forall v :: v in p ==> v in m
    ensures PathDuration(m, p) <= SumDurations(waves)
  {
    hide PlanFrom, RespectsEdges, WellNumbered, AllPlanned, Plannable, EstimatesSuffice, Walk;
    PlanRespectsEdges(m, edges, s, order, limit);
    WalkWithinWaves(m, edges, waves, p);
  }

  /** So it is, in particular, when all nodes have estimates, and when none has. */
  lemma CriticalPathWithinUniformPlan(
      m: map<NodeId, Node>, edges: seq<Edge>, s: States, order: seq<NodeId>, limit: Option<nat>,
      waves: seq<Wave>, p: seq<NodeId>)
    requires Plannable(m, edges, s, order) && NodesOf(waves) == PlanFrom(m, edges, s, order, limit)
    requires WellNumbered(m, waves) && AllPlanned(m, waves)
    requires (forall v :: v in m ==> m[v].estimatedDuration.Some?) ||
             (forall v :: v in m ==> m[v].estimatedDuration.None?)
    requires Walk(edges, p) && forall v :: v in p ==> v in m
    ensures PathDuration(m, p) <= SumDurations(waves)
  {
    hide PlanFrom, RespectsEdges, WellNumbered, AllPlanned, Plannable, EstimatesSuffice, Walk;
    AllOrNoneSuffice(m, waves);
    CriticalPathWithinPlan(m, edges, s, order, limit, waves, p);
  }

  lemma WalkWithinWaves(m: map<NodeId, Node>, edges: seq<Edge>, waves: seq<Wave>, p: seq<NodeId>)
    requires WellNumbered(m, waves) && AllPlanned(m, waves) && EstimatesSuffice(m, waves)
    requires RespectsEdges(edges, NodesOf(waves)) && Walk(edges, p) && forall v :: v in p ==> v in m
    ensures PathDuration(m, p) <= SumDurations(waves)
  {
    hide RespectsEdges, WellNumbered, AllPlanned, EstimatesSuffice;
    var v := p[|p| - 1];
    assert v in p;
    var i := WaveOf(m, waves, v);
    WalkFitsPrefix(m, edges, waves, p, i);
    LongerPrefixLastsLonger(waves, i + 1, |waves|);
    assert waves[..|waves|] == waves;
  }

  // ----- The exact condition -----

  /** The waves bound every walk of every edge list that they respect. */
  ghost predicate BoundsAllWalks(m: map<NodeId, Node>, waves: seq<Wave>) {
    forall edges, p :: RespectsEdges(edges, NodesOf(waves)) && Walk(edges, p) && (forall v :: v in p ==> v in m) ==>
      PathDuration(m, p) <= SumDurations(waves)
  }

  /** A node of greatest duration. */
  lemma {:induction false} LongestNode(m: map<NodeId, Node>, nodes: seq<NodeId>) returns (v: NodeId)
    requires nodes != [] && forall u :: u in nodes ==> u in m
    ensures v in nodes && forall u :: u in nodes ==> DurationOf(m, u) <= DurationOf(m, v)
  {
    v := nodes[0];
    if |nodes| > 1 {
      var w := LongestNode(m, nodes[1..]);
      v := if DurationOf(m, v) < DurationOf(m, w) then w else v;
      assert nodes == [nodes[0]] + nodes[1..];
    }
  }

  /** One longest node of every wave; together they last as long as the waves, or longer if
      one outlasts its wave. */
  lemma {:induction false} LongestOfEach(m: map<NodeId, Node>, waves: seq<Wave>) returns (p: seq<NodeId>)
    requires WellNumbered(m, waves) && forall i :: 0 <= i < |waves| ==> waves[i].nodes != []
    ensures |p| == |waves| && (forall i :: 0 <= i < |p| ==> p[i] in waves[i].nodes) && forall v :: v in p ==> v in m
    ensures PathDuration(m, p) >= SumDurations(waves)
    ensures PathDuration(m, p) == SumDurations(waves) ==> EstimatesSuffice(m, waves)
  {
    hide WellNumbered, EstimatesSuffice, DurationOf, WaveEstimate;
    if waves == [] {
      p := [];
      NoWaveSuffices(m);
    } else {
      var n := |waves| - 1;
      LastWave(m, waves);
      var q := LongestOfEach(m, waves[..n]);
      var v := LongestNode(m, waves[n].nodes);
      p := q + [v];
      assert p[..|p| - 1] == q;
      LongestLastsTheWave(m, waves[n].nodes, v);
    }
  }

  lemma NoWaveSuffices(m: map<NodeId, Node>)
    ensures WellNumbered(m, []) && EstimatesSuffice(m, [])
  {
  }

  lemma LastWave(m: map<NodeId, Node>, waves: seq<Wave>)
    requires WellNumbered(m, waves) && waves != []
    ensures WellNumbered(m, waves[..|waves| - 1])
    ensures forall v :: v in waves[|waves| - 1].nodes ==> v in m
    ensures waves[|waves| - 1].estimatedDuration == WaveEstimate(m, waves[|waves| - 1].nodes)
    ensures EstimatesSuffice(m, waves[..|waves| - 1]) && EstimateSuffices(m, waves[|waves| - 1].nodes) ==>
            EstimatesSuffice(m, waves)
  {
    hide WaveEstimate, EstimateSuffices;
    if EstimatesSuffice(m, waves[..|waves| - 1]) && EstimateSuffices(m, waves[|waves| - 1].nodes) {
      forall i | 0 <= i < |waves| ensures EstimateSuffices(m, waves[i].nodes) {
        if i < |waves| - 1 {
          assert waves[..|waves| - 1][i] == waves[i];
        }
      }
    }
  }

  lemma LongestLastsTheWave(m: map<NodeId, Node>, nodes: seq<NodeId>, v: NodeId)
    requires (forall u :: u in nodes ==> u in m) && v in nodes
    requires forall u :: u in nodes ==> DurationOf(m, u) <= DurationOf(m, v)
    ensures DurationOf(m, v) >= WaveEstimate(m, nodes)
    ensures DurationOf(m, v) == WaveEstimate(m, nodes) ==> EstimateSuffices(m, nodes)
  {
    SufficesIffNoneOutlasts(m, nodes);
    if MaxEstimate(m, nodes).Some? {
      var u :| u in nodes && m[u].estimatedDuration == MaxEstimate(m, nodes);
      assert DurationOf(m, u) <= DurationOf(m, v);
    }
  }

  /** The edges that chain the nodes of a list. */
  function ChainOf(p: seq<NodeId>): (edges: seq<Edge>)
    ensures |edges| == if p == [] then 0 else |p| - 1
    ensures forall i :: 0 <= i < |edges| ==> edges[i] == Edge(p[i], p[i + 1], DependsOn, None, 0)
  {
    seq(if p == [] then 0 else |p| - 1, i requires 0 <= i < |p| - 1 => Edge(p[i], p[i + 1], DependsOn, None, 0))
  }

  lemma ChainIsWalk(p: seq<NodeId>)
    requires p != []
    ensures Walk(ChainOf(p), p)
  {
    forall i | 0 <= i < |p| - 1 ensures Link(ChainOf(p), p[i], p[i + 1]) {
      assert ChainOf(p)[i] in ChainOf(p);
    }
  }

  /** No node is in two waves. */
  ghost predicate InOneWave(plan: seq<seq<NodeId>>) {
    forall v, i, j :: 0 <= i < |plan| && 0 <= j < |plan| && v in plan[i] && v in plan[j] ==> i == j
  }

  lemma ChainIsRespected(waves: seq<Wave>, p: seq<NodeId>)
    requires InOneWave(NodesOf(waves)) && |p| == |waves| && forall i :: 0 <= i < |p| ==> p[i] in waves[i].nodes
    ensures RespectsEdges(ChainOf(p), NodesOf(waves))
  {
    var plan, edges := NodesOf(waves), ChainOf(p);
    forall e, i, j | e in edges && 0 <= i < |plan| && 0 <= j < |plan| && e.source in plan[i] && e.target in plan[j]
      ensures i < j
    {
      var k :| 0 <= k < |edges| && edges[k] == e;
      assert p[k] in plan[k] && p[k + 1] in plan[k + 1];
      assert i == k && j == k + 1;
    }
  }

  /** Waves that hold every node once bound every walk of every edge list that they respect
      exactly when, in every wave that mixes nodes with and without estimates, some estimate
      is at least a second. */
  lemma BoundHoldsIffEstimatesSuffice(m: map<NodeId, Node>, waves: seq<Wave>)
    requires WellNumbered(m, waves) && AllPlanned(m, waves) && InOneWave(NodesOf(waves))
    requires forall i :: 0 <= i < |waves| ==> waves[i].nodes != []
    ensures BoundsAllWalks(m, waves) <==> EstimatesSuffice(m, waves)
  {
    hide WellNumbered, AllPlanned, EstimatesSuffice, InOneWave, RespectsEdges, Walk;
    if EstimatesSuffice(m, waves) {
      forall edges, p | RespectsEdges(edges, NodesOf(waves)) && Walk(edges, p) && (forall v :: v in p ==> v in m)
        ensures PathDuration(m, p) <= SumDurations(waves)
      {
        WalkWithinWaves(m, edges, waves, p);
      }
    }
    if BoundsAllWalks(m, waves) {
      var p := LongestOfEach(m, waves);
      if p != [] {
        ChainIsWalk(p);
        ChainIsRespected(waves, p);
        assert PathDuration(m, p) <= SumDurations(waves);
      }
    }
  }

  lemma {:induction false} DistinctIsOneWave(plan: seq<seq<NodeId>>)
    requires Distinct(Flatten(plan))
    ensures InOneWave(plan)
  {
    if plan != [] {
      var first, rest := plan[0], plan[1..];
      DistinctConcat(first, Flatten(rest));
      DistinctIsOneWave(rest);
      FlattenHolds(rest);
      forall v, i, j | 0 <= i < |plan| && 0 <= j < |plan| && v in plan[i] && v in plan[j] ensures i == j {
        assert i > 0 ==> plan[i] == rest[i - 1];
        assert j > 0 ==> plan[j] == rest[j - 1];
        assert v in Elements(first) <==> v in first;
        assert v in Elements(Flatten(rest)) <==> v in Flatten(rest);
      }
    }
  }

  /** So it is for every plan, under any limit, that holds all nodes. */
  lemma PlanBoundsIffEstimatesSuffice(m: map<NodeId, Node>, edges: seq<Edge>, s: States, order: seq<NodeId>,
                                      limit: Option<nat>, waves: seq<Wave>)
    requires Plannable(m, edges, s, order) && NodesOf(waves) == PlanFrom(m, edges, s, order, limit)
    requires WellNumbered(m, waves) && AllPlanned(m, waves)
    ensures BoundsAllWalks(m, waves) <==> EstimatesSuffice(m, waves)
  {
    hide PlanFrom, WellNumbered, AllPlanned, Plannable, EstimatesSuffice, BoundsAllWalks, InOneWave;
    PlanHoldsPendingOnce(m, edges, s, order, limit);
    DistinctIsOneWave(NodesOf(waves));
    BoundHoldsIffEstimatesSuffice(m, waves);
  }

  function TwoTasks(): map<NodeId, Node> {
    map[0 := Node(0, Task, "a", Pending, None, {}, "", Some(1), None, 0),
        1 := Node(1, Task, "b", Pending, None, {}, "", None, None, 0)]
  }

  function BothPending(): States {
    map[0 := Pending, 1 := Pending]
  }

  lemma TwoTasksShareAWave()
    ensures Plannable(TwoTasks(), [], BothPending(), [0, 1])
    ensures var plan := PlanFrom(TwoTasks(), [], BothPending(), [0, 1], None);
            |plan| == 1 && 0 in plan[0] && 1 in plan[0] && forall v :: v in plan[0] ==> v == 0 || v == 1
  {
    hide NextWave, AfterWave, PlanFrom;
    var s := BothPending();
    assert Elements([0, 1]) == s.Keys == TwoTasks().Keys;
    var wave, t := PlanUnfolds(TwoTasks(), [], s, [0, 1], None);
    assert 0 in s && 1 in s && IsReady([], s, 0) && IsReady([], s, 1);
    var next, u := PlanUnfolds(TwoTasks(), [], t, [0, 1], None);
    assert forall v :: v in s ==> !IsReady([], t, v);
    assert forall v :: v !in next;
    assert Elements(next) == {};
    DistinctCardinality(next);
  }

  /** A plan shorter than its critical path: next to a node estimated at one tick, a node
      without an estimate counts for a second on the critical path but for nothing in the
      duration of its wave. */
  lemma MissingEstimateExceedsPlan(waves: seq<Wave>)
    requires Plannable(TwoTasks(), [], BothPending(), [0, 1])
    requires NodesOf(waves) == PlanFrom(TwoTasks(), [], BothPending(), [0, 1], None) && WellNumbered(TwoTasks(), waves)
    ensures Walk([], [1]) && PathDuration(TwoTasks(), [1]) > SumDurations(waves)
  {
    hide PlanFrom, MaxEstimate, Plannable;
    TwoTasksShareAWave();
    var m := TwoTasks();
    assert waves[0].nodes == NodesOf(waves)[0];
    assert MaxEstimate(m, waves[0].nodes) == Some(1);
    assert waves[..0] == [] && SumDurations(waves[..0]) == 0;
    assert [1][..0] == [] && PathDuration(m, [1]) == TICKS_PER_SECOND;
  }
}
