/** The critical path: the walk of greatest total estimated duration. */
module CriticalPaths {
  import opened Prelude
  import opened Nodes
  import opened Edges
  import opened Topology
  import opened DiGraphs
  import opened ExecutionGraphs
  import opened Schedulers
  import opened Kahn

  /** The estimate of a node, one second when it has none. */
  function DurationOf(m: map<NodeId, Node>, v: NodeId): nat
    requires v in m
  {
    match m[v].estimatedDuration
    case Some(d) => d
    case None => TICKS_PER_SECOND
  }

  function PathDuration(m: map<NodeId, Node>, p: seq<NodeId>): nat
    requires forall v :: v in p ==> v in m
  {
    if p == [] then 0 else PathDuration(m, p[..|p| - 1]) + DurationOf(m, p[|p| - 1])
  }

  /** The duration of a path is that of its parts together; a node by itself takes its
      estimate, or a second without one, and no path no time. */
  lemma {:induction false} DurationsAdd(m: map<NodeId, Node>, p: seq<NodeId>, q: seq<NodeId>)
    requires (forall v :: v in p ==> v in m) && forall v :: v in q ==> v in m
    ensures PathDuration(m, p + q) == PathDuration(m, p) + PathDuration(m, q)
    ensures PathDuration(m, []) == 0
    ensures forall v :: v in m ==>
              && (m[v].estimatedDuration.Some? ==> PathDuration(m, [v]) == m[v].estimatedDuration.value)
              && (m[v].estimatedDuration.None? ==> PathDuration(m, [v]) == TICKS_PER_SECOND)
    decreases |q|
  {
    forall v | v in m ensures PathDuration(m, [v]) == DurationOf(m, v) {
      assert [v][..0] == [];
    }
    if q == [] {
      assert p + q == p;
    } else {
      var most := q[..|q| - 1];
      assert (p + q)[..|p + q| - 1] == p + most;
      DurationsAdd(m, p, most);
    }
  }

  ghost predicate WalkTo(edges: seq<Edge>, m: map<NodeId, Node>, p: seq<NodeId>, v: NodeId) {
    Walk(edges, p) && p[|p| - 1] == v && forall u :: u in p ==> u in m
  }

  /** `best` bounds every walk to `v`, and `path` is a walk that attains it. */
  ghost predicate Longest(edges: seq<Edge>, m: map<NodeId, Node>, v: NodeId, best: nat, path: seq<NodeId>) {
    && WalkTo(edges, m, path, v) && PathDuration(m, path) == best
    && forall p :: WalkTo(edges, m, p, v) ==> PathDuration(m, p) <= best
  }

  /** What the relaxation over the first `k` edges has found: no processed source of an
      edge into `v` is farther than `best`, and `pred` is one at exactly that distance. */
  ghost predicate BestSource(
      edges: seq<Edge>, k: nat, v: NodeId, dist: map<NodeId, nat>, best: nat, pred: Option<NodeId>)
    requires k <= |edges|
  {
    && (forall i :: 0 <= i < k && edges[i].target == v && edges[i].source in dist ==> dist[edges[i].source] <= best)
    && (pred.Some? ==> pred.value in dist && dist[pred.value] == best && Link(edges, pred.value, v))
    && (pred.None? ==> best == 0)
  }

  method FindBestSource(edges: seq<Edge>, v: NodeId, dist: map<NodeId, nat>) returns (best: nat, pred: Option<NodeId>)
    requires forall e :: e in edges && e.target == v ==> e.source in dist
    ensures BestSource(edges, |edges|, v, dist, best, pred)
  {
    best, pred := 0, None;
    for k := 0 to |edges|
      invariant BestSource(edges, k, v, dist, best, pred)
    {
      assert edges[k] in edges;
      if edges[k].target == v && dist[edges[k].source] > best {
        best, pred := dist[edges[k].source], Some(edges[k].source);
      }
    }
  }

  /** The walk recorded for `v`: its predecessor's walk, then `v` itself. */
  ghost predicate Recorded(paths: map<NodeId, seq<NodeId>>, predecessor: map<NodeId, NodeId>, v: NodeId)
    requires v in paths
  {
    if v in predecessor then predecessor[v] in paths && paths[v] == paths[predecessor[v]] + [v] else paths[v] == [v]
  }

  ghost predicate Relaxed(edges: seq<Edge>, m: map<NodeId, Node>, done: set<NodeId>, dist: map<NodeId, nat>,
                          predecessor: map<NodeId, NodeId>, paths: map<NodeId, seq<NodeId>>)
  {
    && dist.Keys == done && paths.Keys == done
    && forall v :: v in done ==> Longest(edges, m, v, dist[v], paths[v]) && Recorded(paths, predecessor, v)
  }

  lemma ExtendWalk(edges: seq<Edge>, m: map<NodeId, Node>, p: seq<NodeId>, u: NodeId, v: NodeId)
    requires WalkTo(edges, m, p, u) && Link(edges, u, v) && v in m
    ensures WalkTo(edges, m, p + [v], v)
    ensures PathDuration(m, p + [v]) == PathDuration(m, p) + DurationOf(m, v)
  {
    var q := p + [v];
    assert q[..|q| - 1] == p;
    forall i | 0 <= i < |q| - 1 ensures Link(edges, q[i], q[i + 1]) {
      if i < |p| - 1 {
        assert Link(edges, p[i], p[i + 1]);
      }
    }
  }

  lemma ShortenWalk(edges: seq<Edge>, m: map<NodeId, Node>, p: seq<NodeId>, v: NodeId)
    requires WalkTo(edges, m, p, v) && |p| > 1
    ensures WalkTo(edges, m, p[..|p| - 1], p[|p| - 2]) && Link(edges, p[|p| - 2], v)
    ensures PathDuration(m, p) == PathDuration(m, p[..|p| - 1]) + DurationOf(m, v)
  {
    var q := p[..|p| - 1];
    assert Link(edges, p[|p| - 2], p[|p| - 2 + 1]);
    forall i | 0 <= i < |q| - 1 ensures Link(edges, q[i], q[i + 1]) {
      assert Link(edges, p[i], p[i + 1]);
    }
  }

  /** Relaxing a node whose sources are all done finds its longest walk. */
  lemma RelaxedOneMore(
      edges: seq<Edge>, m: map<NodeId, Node>, done: set<NodeId>, dist: map<NodeId, nat>,
      predecessor: map<NodeId, NodeId>, paths: map<NodeId, seq<NodeId>>, v: NodeId, best: nat,
      pred: Option<NodeId>)
      returns (path: seq<NodeId>)
    requires Relaxed(edges, m, done, dist, predecessor, paths)
    requires v in m && v !in done && (forall e :: e in edges && e.target == v ==> e.source in done)
    requires BestSource(edges, |edges|, v, dist, best, pred)
    ensures Longest(edges, m, v, best + DurationOf(m, v), path)
    ensures path == if pred.Some? then paths[pred.value] + [v] else [v]
  {
    path := [v];
    assert PathDuration(m, [v]) == DurationOf(m, v) by {
      assert [v][..0] == [];
    }
    if pred.Some? {
      assert Longest(edges, m, pred.value, dist[pred.value], paths[pred.value]);
      ExtendWalk(edges, m, paths[pred.value], pred.value, v);
      path := paths[pred.value] + [v];
    }
    forall p | WalkTo(edges, m, p, v) ensures PathDuration(m, p) <= best + DurationOf(m, v) {
      if |p| > 1 {
        ShortenWalk(edges, m, p, v);
        var u := p[|p| - 2];
        var e :| e in edges && e.source == u && e.target == v;
        var i :| 0 <= i < |edges| && edges[i] == e;
        assert Longest(edges, m, u, dist[u], paths[u]);
      } else {
        assert p == [v];
      }
    }
  }

  /** Relaxes one node all of whose sources are done. */
  method RelaxNode(
      m: map<NodeId, Node>, edges: seq<Edge>, v: NodeId, dist: map<NodeId, nat>,
      predecessor: map<NodeId, NodeId>, ghost paths: map<NodeId, seq<NodeId>>)
      returns (dist': map<NodeId, nat>, predecessor': map<NodeId, NodeId>, ghost paths': map<NodeId, seq<NodeId>>)
    requires Relaxed(edges, m, dist.Keys, dist, predecessor, paths) && predecessor.Keys <= dist.Keys
    requires v in m && v !in dist && forall e :: e in edges && e.target == v ==> e.source in dist
    ensures dist'.Keys == dist.Keys + {v} && predecessor'.Keys <= dist'.Keys
    ensures Relaxed(edges, m, dist'.Keys, dist', predecessor', paths')
  {
    hide Longest, Walk;
    var best, pred := FindBestSource(edges, v, dist);
    ghost var path := RelaxedOneMore(edges, m, dist.Keys, dist, predecessor, paths, v, best, pred);
    RecordOneMore(edges, m, dist.Keys, dist, predecessor, paths, v, best + DurationOf(m, v), pred, path);
    dist' := dist[v := best + DurationOf(m, v)];
    predecessor' := if pred.Some? then predecessor[v := pred.value] else predecessor;
    paths' := paths[v := path];
  }

  lemma NextInOrder(edges: seq<Edge>, topo: seq<NodeId>, i: nat)
    requires TopoOrder(edges, topo) && i < |topo|
    ensures topo[i] !in Elements(topo[..i]) && Elements(topo[..i + 1]) == Elements(topo[..i]) + {topo[i]}
    ensures forall e :: e in edges && e.target == topo[i] ==> e.source in Elements(topo[..i])
  {
    assert topo[..i + 1] == topo[..i] + [topo[i]];
  }

  /** Distances and predecessors of all nodes, relaxed in topological order. */
  method Relax(m: map<NodeId, Node>, topo: seq<NodeId>, edges: seq<Edge>)
      returns (dist: map<NodeId, nat>, predecessor: map<NodeId, NodeId>, ghost paths: map<NodeId, seq<NodeId>>)
    requires TopoOrder(edges, topo) && forall v :: v in topo ==> v in m
    ensures dist.Keys == Elements(topo) && Relaxed(edges, m, dist.Keys, dist, predecessor, paths)
  {
    hide Longest, TopoOrder, Recorded;
    dist, predecessor, paths := map[], map[], map[];
    for i := 0 to |topo|
      invariant dist.Keys == Elements(topo[..i]) && predecessor.Keys <= dist.Keys
      invariant Relaxed(edges, m, dist.Keys, dist, predecessor, paths)
    {
      NextInOrder(edges, topo, i);
      dist, predecessor, paths := RelaxNode(m, edges, topo[i], dist, predecessor, paths);
    }
    assert topo[..|topo|] == topo;
  }

  lemma RecordOneMore(
      edges: seq<Edge>, m: map<NodeId, Node>, done: set<NodeId>, dist: map<NodeId, nat>,
      predecessor: map<NodeId, NodeId>, paths: map<NodeId, seq<NodeId>>, v: NodeId, d: nat,
      pred: Option<NodeId>, path: seq<NodeId>)
    requires Relaxed(edges, m, done, dist, predecessor, paths) && predecessor.Keys <= done
    requires v !in done && Longest(edges, m, v, d, path)
    requires pred.Some? ==> pred.value in done && path == paths[pred.value] + [v]
    requires pred.None? ==> path == [v]
    ensures Relaxed(edges, m, done + {v}, dist[v := d],
              if pred.Some? then predecessor[v := pred.value] else predecessor, paths[v := path])
  {
    var after := if pred.Some? then predecessor[v := pred.value] else predecessor;
    forall u | u in done + {v}
      ensures Longest(edges, m, u, dist[v := d][u], paths[v := path][u]) && Recorded(paths[v := path], after, u)
    {
      if u != v {
        assert Longest(edges, m, u, dist[u], paths[u]) && Recorded(paths, predecessor, u);
      }
    }
  }

  /** Some node of greatest distance; ties may go either way. */
  method Farthest(order: seq<NodeId>, dist: map<NodeId, nat>) returns (end: NodeId)
    requires order != [] && dist.Keys == Elements(order)
    ensures end in dist && forall v :: v in dist ==> dist[v] <= dist[end]
  {
    assert forall v :: v in order ==> v in dist.Keys;
    end := order[0];
    for i := 1 to |order|
      invariant end in dist && forall j :: 0 <= j < i ==> order[j] in dist && dist[order[j]] <= dist[end]
    {
      if dist[order[i]] >= dist[end] {
        end := order[i];
      }
    }
  }

  lemma ReversedHead(back: seq<NodeId>, pred: NodeId)
    requires back != []
    ensures Reverse(back + [pred]) == [pred] + Reverse(back) && Reverse(back)[0] == back[|back| - 1]
  {
    assert (back + [pred])[..|back|] == back;
  }

  lemma HeadMoves(before: seq<NodeId>, x: NodeId, rest: seq<NodeId>)
    ensures before + ([x] + rest) == before + [x] + rest && ([x] + rest)[1..] == rest
  {
  }

  lemma TraceStep(back: seq<NodeId>, current: NodeId, pred: NodeId, before: seq<NodeId>, whole: seq<NodeId>)
    requires back != [] && back[|back| - 1] == current
    requires before + [current] + Reverse(back)[1..] == whole
    ensures before + Reverse(back + [pred])[1..] == whole
  {
    hide Reverse;
    ReversedHead(back, pred);
    var turned := Reverse(back);
    assert turned == [current] + turned[1..];
    HeadMoves(before, current, turned[1..]);
    HeadMoves(before, pred, turned);
  }

  /** Follows predecessors back from `end` and reverses what it met. */
  method TraceBack(predecessor: map<NodeId, NodeId>, end: NodeId, ghost paths: map<NodeId, seq<NodeId>>)
    returns (path: seq<NodeId>)
    requires end in paths && forall v :: v in paths ==> Recorded(paths, predecessor, v)
    ensures path == paths[end]
  {
    var back, current := [end], end;
    while current in predecessor
      invariant current in paths && back != [] && back[|back| - 1] == current
      invariant paths[current] + Reverse(back)[1..] == paths[end]
      decreases |paths[current]|
    {
      hide Reverse;
      var pred := predecessor[current];
      assert Recorded(paths, predecessor, current);
      TraceStep(back, current, pred, paths[pred], paths[end]);
      back, current := back + [pred], pred;
    }
    path := Reverse(back);
    assert Recorded(paths, predecessor, current);
    assert path == [current] + path[1..];
  }

  /** The critical path and its duration; an error exactly on a cyclic graph. */
  method CriticalPath(m: map<NodeId, Node>, ids: seq<NodeId>, edges: seq<Edge>)
    returns (r: Result<(seq<NodeId>, nat), GraphError>)
    requires Distinct(ids) && Elements(ids) == m.Keys && EndsIn(edges, m.Keys)
    ensures r.Err? ==> r.error == CycleDetected
    ensures r.Err? <==> HasCycle(edges)
    ensures r.Ok? && m == map[] ==> r.value == ([], 0)
    ensures r.Ok? && m != map[] ==>
              && Walk(edges, r.value.0) && (forall v :: v in r.value.0 ==> v in m)
              && PathDuration(m, r.value.0) == r.value.1
    ensures r.Ok? ==> forall p :: Walk(edges, p) && (forall v :: v in p ==> v in m) ==> PathDuration(m, p) <= r.value.1
  {
    var topo := TopologicalSort(ids, edges);
    if |topo| != |ids| {
      return Err(CycleDetected);
    }
    assert forall v :: v in topo <==> v in m by {
      assert forall v :: v in Elements(topo) <==> v in m.Keys;
    }
    if topo == [] {
      forall p | Walk(edges, p) ensures exists v :: v in p && v !in m {
        assert p[0] in p;
      }
      return Ok(([], 0));
    }
    var dist, predecessor, paths := Relax(m, topo, edges);
    var end := Farthest(topo, dist);
    var path := TraceBack(predecessor, end, paths);
    assert Longest(edges, m, end, dist[end], paths[end]);
    forall p | Walk(edges, p) && (forall v :: v in p ==> v in m) ensures PathDuration(m, p) <= dist[end] {
      var v := p[|p| - 1];
      assert v in p && v in dist;
      assert Longest(edges, m, v, dist[v], paths[v]) && WalkTo(edges, m, p, v);
    }
    r := Ok((path, dist[end]));
  }

  lemma GraphHasEnds(graph: ExecutionGraph)
    requires graph.Valid()
    ensures Distinct(graph.order) && Elements(graph.order) == graph.nodes.Keys
    ensures EndsIn(graph.edges, graph.nodes.Keys) && !HasCycle(graph.edges)
  {
    hide Rep, DependenciesCover, HasCycle;
    ValidIsPlannable(graph);
  }

  /** The critical path of a graph: it always has one, since adding edges keeps it acyclic. */
  method CriticalPathOf(graph: ExecutionGraph) returns (r: Result<(seq<NodeId>, nat), GraphError>)
    requires graph.Valid()
    ensures r.Ok? && (graph.nodes == map[] ==> r.value == ([], 0))
    ensures graph.nodes != map[] ==>
              && Walk(graph.edges, r.value.0) && (forall v :: v in r.value.0 ==> v in graph.nodes)
              && PathDuration(graph.nodes, r.value.0) == r.value.1
    ensures forall p :: Walk(graph.edges, p) && (forall v :: v in p ==> v in graph.nodes) ==>
            PathDuration(graph.nodes, p) <= r.value.1
  {
    hide Sound, Covers, HasCycle, Walk, EndsIn;
    GraphHasEnds(graph);
    SoundParts(graph.graph, graph.indexMap);
    r := CriticalPath(Lookup(graph.graph, graph.indexMap), graph.NodeIds(), Weights(graph.graph.arcs));
  }
}
