/** The benchmark's DAG: waves by depth and the length of the longest path, computed in
    one pass over a topological order. It is the reference for the library's planner. */
module BenchDags {
  import opened Prelude
  import opened Nodes
  import opened Edges
  import opened Topology
  import opened Planning
  import opened WaveDepth
  import opened Kahn

  /** `depth` holds the depth of every node of `done`. */
  ghost predicate Depths(edges: seq<Edge>, rank: map<NodeId, nat>, done: set<NodeId>, depth: map<NodeId, nat>)
    requires Ranked(edges, rank)
  {
    depth.Keys == done && forall v :: v in done ==> depth[v] == Depth(edges, rank, v)
  }

  /** `longest` holds, for every node of `done`, the number of nodes on a longest path to it. */
  ghost predicate Lengths(edges: seq<Edge>, rank: map<NodeId, nat>, done: set<NodeId>, longest: map<NodeId, nat>)
    requires Ranked(edges, rank)
  {
    longest.Keys == done && forall v :: v in done ==> longest[v] == Depth(edges, rank, v) + 1
  }

  /** Depth is determined by its recurrence. */
  lemma DepthIsMaximum(edges: seq<Edge>, rank: map<NodeId, nat>, v: NodeId, d: nat)
    requires Ranked(edges, rank)
    requires forall e :: e in edges && e.target == v ==> Depth(edges, rank, e.source) < d
    requires d > 0 ==> exists e :: e in edges && e.target == v && d == Depth(edges, rank, e.source) + 1
    ensures d == Depth(edges, rank, v)
  {
    DepthRecurrence(edges, rank, v);
  }

  /** The greatest depth among the dependencies of `v` plus one, zero without any. */
  method DepthOf(edges: seq<Edge>, v: NodeId, depth: map<NodeId, nat>, ghost rank: map<NodeId, nat>) returns (d: nat)
    requires Ranked(edges, rank) && Depths(edges, rank, depth.Keys, depth)
    requires forall e :: e in edges && e.target == v ==> e.source in depth
    ensures d == Depth(edges, rank, v)
  {
    hide Depth, Ranked;
    d := 0;
    for k := 0 to |edges|
      invariant forall i :: 0 <= i < k && edges[i].target == v ==> depth[edges[i].source] < d
      invariant d > 0 ==> exists e :: e in edges && e.target == v && d == depth[e.source] + 1
    {
      assert edges[k] in edges;
      if edges[k].target == v && depth[edges[k].source] + 1 > d {
        d := depth[edges[k].source] + 1;
      }
    }
    forall e | e in edges && e.target == v ensures Depth(edges, rank, e.source) < d {
      var i :| 0 <= i < |edges| && edges[i] == e;
    }
    DepthIsMaximum(edges, rank, v, d);
  }

  /** The node at position `i` of an order comes after its sources. */
  lemma SourcesBefore(edges: seq<Edge>, order: seq<NodeId>, i: nat)
    requires TopoOrder(edges, order) && i < |order|
    ensures forall e :: e in edges && e.target == order[i] ==> e.source in Elements(order[..i])
    ensures Elements(order[..i + 1]) == Elements(order[..i]) + {order[i]}
  {
    assert order[..i + 1] == order[..i] + [order[i]];
  }

  lemma WholeOrder(order: seq<NodeId>)
    ensures Elements(order[..|order|]) == Elements(order) && Elements(order[..0]) == {}
  {
    assert order[..|order|] == order;
  }

  lemma OneMoreDepth(
      edges: seq<Edge>, rank: map<NodeId, nat>, done: set<NodeId>, depth: map<NodeId, nat>, v: NodeId, d: nat)
    requires Ranked(edges, rank) && Depths(edges, rank, done, depth) && d == Depth(edges, rank, v)
    ensures depth.Keys == done && Depths(edges, rank, done + {v}, depth[v := d])
  {
    hide Depth;
  }

  lemma OneMoreLength(
      edges: seq<Edge>, rank: map<NodeId, nat>, done: set<NodeId>, longest: map<NodeId, nat>, v: NodeId, l: nat)
    requires Ranked(edges, rank) && Lengths(edges, rank, done, longest) && l == Depth(edges, rank, v) + 1
    ensures longest.Keys == done && Lengths(edges, rank, done + {v}, longest[v := l])
  {
    hide Depth;
  }

  lemma NothingMeasured(edges: seq<Edge>, rank: map<NodeId, nat>)
    requires Ranked(edges, rank)
    ensures Depths(edges, rank, {}, map[]) && Lengths(edges, rank, {}, map[])
  {
  }

  lemma Measured(edges: seq<Edge>, rank: map<NodeId, nat>, done: set<NodeId>, table: map<NodeId, nat>)
    requires Ranked(edges, rank)
    ensures Depths(edges, rank, done, table) || Lengths(edges, rank, done, table) ==> table.Keys == done
  {
  }

  /** The depths of all nodes, in one pass over a topological order. */
  method AllDepths(ids: seq<NodeId>, edges: seq<Edge>) returns (depth: map<NodeId, nat>, ghost rank: map<NodeId, nat>)
    requires Distinct(ids) && EndsIn(edges, Elements(ids)) && !HasCycle(edges)
    ensures Ranked(edges, rank) && Depths(edges, rank, Elements(ids), depth)
  {
    hide Depth, TopoOrder, Distinct, HasCycle, Ranked, Depths, EndsIn;
    var sorted := TopologicalSort(ids, edges);
    rank := OrderIsRank(edges, sorted);
    depth := map[];
    NothingMeasured(edges, rank);
    WholeOrder(sorted);
    for i := 0 to |sorted|
      invariant Depths(edges, rank, Elements(sorted[..i]), depth)
    {
      SourcesBefore(edges, sorted, i);
      Measured(edges, rank, Elements(sorted[..i]), depth);
      var d := DepthOf(edges, sorted[i], depth, rank);
      OneMoreDepth(edges, rank, Elements(sorted[..i]), depth, sorted[i], d);
      depth := depth[sorted[i] := d];
    }
  }

  method MaxValue(depth: map<NodeId, nat>) returns (max: nat)
    ensures forall v :: v in depth ==> depth[v] <= max
    ensures depth != map[] ==> exists v :: v in depth && depth[v] == max
    ensures depth == map[] ==> max == 0
  {
    max := 0;
    var left := depth.Keys;
    while left != {}
      invariant left <= depth.Keys
      invariant forall v :: v in depth && v !in left ==> depth[v] <= max
      invariant max > 0 || left != depth.Keys ==> exists v :: v in depth && depth[v] == max
      invariant max > 0 ==> depth != map[]
      decreases left
    {
      var v :| v in left;
      if depth[v] > max || max == 0 {
        max := depth[v];
      }
      left := left - {v};
    }
  }

  /** Puts every node in the bucket of its depth; the order inside a bucket is arbitrary. */
  method Buckets(depth: map<NodeId, nat>, count: nat) returns (waves: seq<seq<NodeId>>)
    requires forall v :: v in depth ==> depth[v] < count
    ensures |waves| == count
    ensures depth == map[] ==> forall i :: 0 <= i < count ==> waves[i] == []
    ensures forall i, v :: 0 <= i < count ==> (v in waves[i] <==> v in depth && depth[v] == i)
  {
    waves := seq(count, _ => []);
    var left := depth.Keys;
    while left != {}
      invariant left <= depth.Keys && |waves| == count
      invariant left == depth.Keys ==> forall i :: 0 <= i < count ==> waves[i] == []
      invariant forall i, v :: 0 <= i < count ==> (v in waves[i] <==> v in depth && v !in left && depth[v] == i)
      decreases left
    {
      var v :| v in left;
      waves := waves[depth[v] := waves[depth[v]] + [v]];
      left := left - {v};
    }
  }

  /** Partition into waves by depth: the optimal waves, but for an empty graph, to which
      it gives one empty wave. */
  method PlanWaves(ids: seq<NodeId>, edges: seq<Edge>) returns (waves: seq<seq<NodeId>>)
    requires Distinct(ids) && EndsIn(edges, Elements(ids)) && !HasCycle(edges)
    ensures ids != [] ==> OptimalWaves(edges, Elements(ids), waves)
    ensures ids == [] ==> waves == [[]]
  {
    var depth, rank := AllDepths(ids, edges);
    var maxDepth := MaxValue(depth);
    waves := Buckets(depth, maxDepth + 1);
    if ids != [] {
      assert ids[0] in depth;
      BucketsAreLayers(ids, edges, rank, depth, waves);
    } else {
      assert depth == map[] && waves == [[]];
    }
  }

  lemma BucketsAreLayers(
      ids: seq<NodeId>, edges: seq<Edge>, rank: map<NodeId, nat>, depth: map<NodeId, nat>,
      waves: seq<seq<NodeId>>)
    requires EndsIn(edges, Elements(ids)) && Ranked(edges, rank) && Depths(edges, rank, Elements(ids), depth)
    requires waves != [] && exists v :: v in depth && depth[v] == |waves| - 1
    requires forall v :: v in depth ==> depth[v] < |waves|
    requires forall i, v :: 0 <= i < |waves| ==> (v in waves[i] <==> v in depth && depth[v] == i)
    ensures OptimalWaves(edges, Elements(ids), waves)
  {
    var s: States := map v | v in ids :: Pending;
    var deepest :| deepest in depth && depth[deepest] == |waves| - 1;
    forall i | 0 <= i < |waves| ensures waves[i] != [] {
      var u := DepthsAreDense(edges, rank, s, deepest, i);
      assert u in waves[i];
    }
    LayersAreOptimal(edges, rank, Elements(ids), waves);
  }

  /** One for a node without dependencies, else one more than the longest of them. */
  method LengthOf(edges: seq<Edge>, v: NodeId, longest: map<NodeId, nat>, ghost rank: map<NodeId, nat>)
      returns (l: nat)
    requires Ranked(edges, rank) && Lengths(edges, rank, longest.Keys, longest)
    requires forall e :: e in edges && e.target == v ==> e.source in longest
    ensures l == Depth(edges, rank, v) + 1
  {
    hide Depth, Ranked;
    var most: nat := 0;
    for k := 0 to |edges|
      invariant forall i :: 0 <= i < k && edges[i].target == v ==> longest[edges[i].source] <= most
      invariant most > 0 ==> exists e :: e in edges && e.target == v && most == longest[e.source]
    {
      assert edges[k] in edges;
      if edges[k].target == v && longest[edges[k].source] > most {
        most := longest[edges[k].source];
      }
    }
    forall e | e in edges && e.target == v ensures Depth(edges, rank, e.source) < most {
      var i :| 0 <= i < |edges| && edges[i] == e;
    }
    DepthIsMaximum(edges, rank, v, most);
    l := most + 1;
  }

  /** The lengths of the longest paths to all nodes, in one pass over a topological order. */
  method AllLengths(ids: seq<NodeId>, edges: seq<Edge>)
      returns (longest: map<NodeId, nat>, ghost rank: map<NodeId, nat>)
    requires Distinct(ids) && EndsIn(edges, Elements(ids)) && !HasCycle(edges)
    ensures Ranked(edges, rank) && Lengths(edges, rank, Elements(ids), longest)
  {
    hide Depth, TopoOrder, Distinct, HasCycle, Ranked, Lengths, EndsIn;
    var sorted := TopologicalSort(ids, edges);
    rank := OrderIsRank(edges, sorted);
    longest := map[];
    NothingMeasured(edges, rank);
    WholeOrder(sorted);
    for i := 0 to |sorted|
      invariant Lengths(edges, rank, Elements(sorted[..i]), longest)
    {
      SourcesBefore(edges, sorted, i);
      Measured(edges, rank, Elements(sorted[..i]), longest);
      var l := LengthOf(edges, sorted[i], longest, rank);
      OneMoreLength(edges, rank, Elements(sorted[..i]), longest, sorted[i], l);
      longest := longest[sorted[i] := l];
    }
  }

  /** The number of nodes on the longest path. */
  method CriticalPathLength(ids: seq<NodeId>, edges: seq<Edge>) returns (length: nat)
    requires Distinct(ids) && EndsIn(edges, Elements(ids)) && !HasCycle(edges)
    ensures ids == [] ==> length == 0
    ensures ids != [] ==> exists p :: Walk(edges, p) && |p| == length && p[length - 1] in ids
    ensures forall p :: Walk(edges, p) && p[|p| - 1] in ids ==> |p| <= length
  {
    var longest, rank := AllLengths(ids, edges);
    length := MaxValue(longest);
    assert forall v :: v in ids <==> v in longest;
    if ids != [] {
      assert ids[0] in longest;
      var v :| v in longest && longest[v] == length;
      var p := DeepestWalk(edges, rank, v);
    }
    forall p | Walk(edges, p) && p[|p| - 1] in ids ensures |p| <= length {
      WalkWithinDepth(edges, rank, p);
    }
  }

  /** On a nonempty graph of pending nodes in which success satisfies every edge, the
      library's unlimited plan has the benchmark's waves, as many as the longest path has nodes. */
  lemma LibraryPlanMatchesBenchmark(m: map<NodeId, Node>, edges: seq<Edge>, s: States, order: seq<NodeId>,
                                    waves: seq<seq<NodeId>>, length: nat, p: seq<NodeId>)
    requires Plannable(m, edges, s, order) && !HasCycle(edges)
    requires (forall v :: v in s ==> s[v].Pending?) && forall e :: e in edges ==> SuccessSatisfies(e)
    requires OptimalWaves(edges, s.Keys, waves)
    requires Walk(edges, p) && |p| == length && p[length - 1] in s
    requires forall q :: Walk(edges, q) && q[|q| - 1] in s ==> |q| <= length
    ensures var plan := PlanFrom(m, edges, s, order, None);
            |plan| == |waves| == length && forall i :: 0 <= i < |plan| ==> Elements(plan[i]) == Elements(waves[i])
  {
    UnlimitedPlanIsOptimal(m, edges, s, order);
    OptimalWavesAgree(edges, s.Keys, PlanFrom(m, edges, s, order, None), waves);
    WaveCountIsPathLength(edges, s, waves, length, p);
  }

  lemma WaveCountIsPathLength(edges: seq<Edge>, s: States, waves: seq<seq<NodeId>>, length: nat, p: seq<NodeId>)
    requires OptimalWaves(edges, s.Keys, waves)
    requires Walk(edges, p) && |p| == length && p[length - 1] in s
    requires forall q :: Walk(edges, q) && q[|q| - 1] in s ==> |q| <= length
    ensures |waves| == length
  {
    var v := p[length - 1];
    assert ChainTo(edges, v, length - 1);
    assert LongestChain(edges, v, length - 1) by {
      forall k: nat | ChainTo(edges, v, k) ensures k <= length - 1 {
        var q :| Walk(edges, q) && |q| == k + 1 && q[k] == v;
      }
    }
    var last := |waves| - 1;
    var u := waves[last][0];
    assert u in waves[last];
    assert LongestChain(edges, u, last);
    var q :| Walk(edges, q) && |q| == last + 1 && q[last] == u;
  }
}
