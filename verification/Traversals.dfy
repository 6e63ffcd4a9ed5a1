/** Worklist traversals of an execution graph: ancestors and descendants. */
module Traversals {
  import opened Prelude
  import opened Nodes
  import opened Edges
  import opened Topology
  import opened DiGraphs
  import opened ExecutionGraphs
  import opened Reachability

  datatype Direction = Incoming | Outgoing | Either

  ghost predicate Adjacent(edges: seq<Edge>, dir: Direction, u: NodeId, v: NodeId) {
    (dir != Incoming && Link(edges, u, v)) || (dir != Outgoing && Link(edges, v, u))
  }

  ghost function StepOf(edges: seq<Edge>, dir: Direction): (NodeId, NodeId) -> bool {
    (u: NodeId, v: NodeId) => Adjacent(edges, dir, u, v)
  }

  /** The neighbours of `v` along the first `k` edges. */
  function NeighborsAlong(edges: seq<Edge>, dir: Direction, v: NodeId, k: nat): set<NodeId>
    requires k <= |edges|
  {
    (set i | 0 <= i < k && dir != Incoming && edges[i].source == v :: edges[i].target)
    + (set i | 0 <= i < k && dir != Outgoing && edges[i].target == v :: edges[i].source)
  }

  lemma NeighborsAreAdjacent(edges: seq<Edge>, dir: Direction, v: NodeId)
    ensures forall u :: u in NeighborsAlong(edges, dir, v, |edges|) <==> Adjacent(edges, dir, v, u)
  {
    forall u | Adjacent(edges, dir, v, u) ensures u in NeighborsAlong(edges, dir, v, |edges|) {
      if dir != Incoming && Link(edges, v, u) {
        var e :| e in edges && e.source == v && e.target == u;
        var i :| 0 <= i < |edges| && edges[i] == e;
      } else {
        var e :| e in edges && e.source == u && e.target == v;
        var i :| 0 <= i < |edges| && edges[i] == e;
      }
    }
  }

  /** `queue'` is `queue` with the newly visited nodes appended. */
  ghost predicate Enqueued(visited: set<NodeId>, queue: seq<NodeId>, visited': set<NodeId>, queue': seq<NodeId>) {
    && visited <= visited'
    && (forall v :: v in queue' <==> v in queue || v in visited' - visited)
    && queue <= queue' && (forall j :: |queue| <= j < |queue'| ==> queue'[j] !in visited)
    && (visited' == visited ==> queue' == queue)
    && (Distinct(queue) && Elements(queue) <= visited ==> Distinct(queue'))
  }

  method Visit(v: NodeId, visited: set<NodeId>, queue: seq<NodeId>) returns (visited': set<NodeId>, queue': seq<NodeId>)
    ensures visited' == visited + {v} && Enqueued(visited, queue, visited', queue')
  {
    visited', queue' := visited, queue;
    if v !in visited {
      visited', queue' := visited + {v}, queue + [v];
      assert v in queue ==> v in Elements(queue);
    } else {
      assert visited + {v} == visited;
    }
  }

  lemma EnqueuedChain(
      v0: set<NodeId>, q0: seq<NodeId>, v1: set<NodeId>, q1: seq<NodeId>, v2: set<NodeId>, q2: seq<NodeId>)
    requires Enqueued(v0, q0, v1, q1) && Enqueued(v1, q1, v2, q2)
    ensures Enqueued(v0, q0, v2, q2)
  {
    if Distinct(q0) && Elements(q0) <= v0 {
      assert Elements(q1) <= v1 by {
        forall v | v in q1 ensures v in v1 {
          assert v in q0 ==> v in Elements(q0);
        }
      }
    }
  }

  /** Visits the unvisited neighbours of `v` and queues them. */
  method Expand(edges: seq<Edge>, dir: Direction, v: NodeId, visited: set<NodeId>, queue: seq<NodeId>)
      returns (visited': set<NodeId>, queue': seq<NodeId>)
    ensures visited' == visited + NeighborsAlong(edges, dir, v, |edges|)
    ensures Enqueued(visited, queue, visited', queue')
  {
    hide Enqueued;
    visited', queue' := visited, queue;
    NothingEnqueued(visited, queue);
    for k := 0 to |edges|
      invariant visited' == visited + NeighborsAlong(edges, dir, v, k)
      invariant Enqueued(visited, queue, visited', queue')
    {
      ghost var v1, q1 := visited', queue';
      if dir != Incoming && edges[k].source == v {
        visited', queue' := Visit(edges[k].target, visited', queue');
        EnqueuedChain(visited, queue, v1, q1, visited', queue');
      }
      ghost var v2, q2 := visited', queue';
      if dir != Outgoing && edges[k].target == v {
        visited', queue' := Visit(edges[k].source, visited', queue');
        EnqueuedChain(visited, queue, v2, q2, visited', queue');
      }
    }
  }

  lemma NothingEnqueued(visited: set<NodeId>, queue: seq<NodeId>)
    ensures Enqueued(visited, queue, visited, queue)
  {
  }

  /** What a worklist traversal from `starts` keeps: everything visited is reachable, and
      everything next to a visited node that is no longer queued has been visited. */
  ghost predicate Exploring(
      edges: seq<Edge>, dir: Direction, starts: set<NodeId>, visited: set<NodeId>, queue: seq<NodeId>)
  {
    && starts <= visited && (forall v :: v in queue ==> v in visited)
    && (forall v :: v in visited ==> ReachedFrom(edges, dir, starts, v))
    && forall u, v :: u in visited && u !in queue && Adjacent(edges, dir, u, v) ==> v in visited
  }

  ghost predicate ReachedFrom(edges: seq<Edge>, dir: Direction, starts: set<NodeId>, v: NodeId) {
    exists u :: u in starts && Reaches(StepOf(edges, dir), u, v)
  }

  lemma StartExploring(edges: seq<Edge>, dir: Direction, starts: set<NodeId>, queue: seq<NodeId>)
    requires forall v :: v in queue <==> v in starts
    ensures Exploring(edges, dir, starts, starts, queue)
  {
    forall v | v in starts ensures ReachedFrom(edges, dir, starts, v) {
      ReachesItself(StepOf(edges, dir), v);
    }
  }

  /** Taking `v` off the queue and visiting all its neighbours keeps the invariant. */
  lemma ExploreOneMore(edges: seq<Edge>, dir: Direction, starts: set<NodeId>, visited: set<NodeId>, queue: seq<NodeId>,
                       rest: seq<NodeId>, v: NodeId, visited': set<NodeId>, queue': seq<NodeId>)
    requires Exploring(edges, dir, starts, visited, queue) && v in queue
    requires forall u :: u in queue ==> u == v || u in rest
    requires forall u :: u in rest ==> u in queue
    requires visited' == visited + NeighborsAlong(edges, dir, v, |edges|)
    requires Enqueued(visited, rest, visited', queue')
    ensures Exploring(edges, dir, starts, visited', queue')
  {
    hide Link, Reaches;
    NeighborsAreAdjacent(edges, dir, v);
    forall u | u in visited' ensures ReachedFrom(edges, dir, starts, u) {
      if u !in visited {
        var s :| s in starts && Reaches(StepOf(edges, dir), s, v);
        ReachesFurther(StepOf(edges, dir), s, v, u);
      }
    }
  }

  lemma Explored(edges: seq<Edge>, dir: Direction, starts: set<NodeId>, visited: set<NodeId>)
    requires Exploring(edges, dir, starts, visited, [])
    ensures forall v :: v in visited <==> ReachedFrom(edges, dir, starts, v)
  {
    hide Reaches;
    assert ClosedUnder(StepOf(edges, dir), visited);
    forall v | ReachedFrom(edges, dir, starts, v) ensures v in visited {
      var s :| s in starts && Reaches(StepOf(edges, dir), s, v);
      ClosedHoldsReachable(StepOf(edges, dir), visited, s);
    }
  }

  ghost function Ends(edges: seq<Edge>): set<NodeId> {
    (set e | e in edges :: e.source) + set e | e in edges :: e.target
  }

  /** Breadth-first closure of `start` in a direction. */
  method Closure(edges: seq<Edge>, dir: Direction, start: NodeId) returns (visited: set<NodeId>)
    ensures forall v :: v in visited <==> Reaches(StepOf(edges, dir), start, v)
  {
    hide Exploring, Enqueued, NeighborsAlong, Reaches, Adjacent;
    var queue := [start];
    visited := {start};
    StartExploring(edges, dir, {start}, queue);
    while queue != []
      invariant Exploring(edges, dir, {start}, visited, queue)
      invariant visited <= Ends(edges) + {start}
      decreases Ends(edges) + {start} - visited, |queue|
    {
      var v, rest := queue[0], queue[1..];
      assert queue == [v] + rest;
      ghost var before, waiting := visited, queue;
      visited, queue := Expand(edges, dir, v, visited, rest);
      ExploreOneMore(edges, dir, {start}, before, waiting, rest, v, visited, queue);
      ExpandWithin(edges, dir, v, before, rest, visited, queue);
    }
    Explored(edges, dir, {start}, visited);
    assert forall v :: ReachedFrom(edges, dir, {start}, v) <==> Reaches(StepOf(edges, dir), start, v) by {
      forall v ensures ReachedFrom(edges, dir, {start}, v) <==> Reaches(StepOf(edges, dir), start, v) {
        assert start in {start};
      }
    }
  }

  lemma ExpandWithin(
      edges: seq<Edge>, dir: Direction, v: NodeId, visited: set<NodeId>, rest: seq<NodeId>,
      visited': set<NodeId>, queue': seq<NodeId>)
    requires visited' == visited + NeighborsAlong(edges, dir, v, |edges|)
    requires Enqueued(visited, rest, visited', queue')
    ensures visited' <= visited + Ends(edges) && visited <= visited'
    ensures visited' == visited ==> queue' == rest
  {
    forall i | 0 <= i < |edges| ensures edges[i].source in Ends(edges) && edges[i].target in Ends(edges) {
      assert edges[i] in edges;
    }
  }

  // ----- Ancestors and descendants -----

  /** Some walk along at least one edge leads from `u` to `v`. */
  ghost predicate Precedes(edges: seq<Edge>, u: NodeId, v: NodeId) {
    exists p :: Walk(edges, p) && |p| > 1 && p[0] == u && p[|p| - 1] == v
  }

  lemma ReachesIsPrecedes(edges: seq<Edge>, u: NodeId, v: NodeId)
    requires !HasCycle(edges)
    ensures Reaches(StepOf(edges, Outgoing), u, v) && u != v <==> Precedes(edges, u, v)
  {
    if Reaches(StepOf(edges, Outgoing), u, v) && u != v {
      var p :| PathBetween(StepOf(edges, Outgoing), p, u, v);
      forall i | 0 <= i < |p| - 1 ensures Link(edges, p[i], p[i + 1]) {
        assert StepOf(edges, Outgoing)(p[i], p[i + 1]);
      }
      assert Walk(edges, p);
    }
    if Precedes(edges, u, v) {
      var p :| Walk(edges, p) && |p| > 1 && p[0] == u && p[|p| - 1] == v;
      forall i | 0 <= i < |p| - 1 ensures StepOf(edges, Outgoing)(p[i], p[i + 1]) {
        assert Link(edges, p[i], p[i + 1]);
      }
      assert PathBetween(StepOf(edges, Outgoing), p, u, v);
      assert u == v ==> HasCycle(edges);
    }
  }

  lemma ReachesBothWays(edges: seq<Edge>, u: NodeId, v: NodeId)
    ensures Reaches(StepOf(edges, Outgoing), u, v) <==> Reaches(StepOf(edges, Incoming), v, u)
  {
    if Reaches(StepOf(edges, Outgoing), u, v) {
      ReachesBack(StepOf(edges, Outgoing), StepOf(edges, Incoming), u, v);
    }
    if Reaches(StepOf(edges, Incoming), v, u) {
      ReachesBack(StepOf(edges, Incoming), StepOf(edges, Outgoing), v, u);
    }
  }

  /** The strict transitive dependencies of a node; none of an unknown one. */
  method Ancestors(graph: ExecutionGraph, id: NodeId) returns (result: set<NodeId>)
    requires graph.Valid()
    ensures id in graph.nodes ==> forall u :: u in result <==> Precedes(graph.edges, u, id)
    ensures id !in graph.nodes ==> result == {}
  {
    hide Reaches, Precedes, HasCycle;
    if id !in graph.indexMap {
      return {};
    }
    var edges := Weights(graph.graph.arcs);
    var visited := Closure(edges, Incoming, id);
    result := visited - {id};
    forall u ensures u in result <==> Precedes(edges, u, id) {
      ReachesBothWays(edges, u, id);
      ReachesIsPrecedes(edges, u, id);
    }
  }

  /** The strict transitive dependents of a node; none of an unknown one. */
  method Descendants(graph: ExecutionGraph, id: NodeId) returns (result: set<NodeId>)
    requires graph.Valid()
    ensures id in graph.nodes ==> forall v :: v in result <==> Precedes(graph.edges, id, v)
    ensures id !in graph.nodes ==> result == {}
  {
    hide Reaches, Precedes, HasCycle;
    if id !in graph.indexMap {
      return {};
    }
    var edges := Weights(graph.graph.arcs);
    var visited := Closure(edges, Outgoing, id);
    result := visited - {id};
    forall v ensures v in result <==> Precedes(edges, id, v) {
      ReachesIsPrecedes(edges, id, v);
    }
  }

  /** Ancestry is a strict order: duality of the two traversals is its definition read
      from either end. */
  lemma PrecedesIsStrictOrder(edges: seq<Edge>, u: NodeId, v: NodeId, w: NodeId)
    requires !HasCycle(edges)
    ensures !Precedes(edges, u, u)
    ensures Precedes(edges, u, v) && Precedes(edges, v, w) ==> Precedes(edges, u, w)
  {
    if Precedes(edges, u, v) && Precedes(edges, v, w) {
      var p :| Walk(edges, p) && |p| > 1 && p[0] == u && p[|p| - 1] == v;
      var q :| Walk(edges, q) && |q| > 1 && q[0] == v && q[|q| - 1] == w;
      var r := p + q[1..];
      forall i | 0 <= i < |r| - 1 ensures Link(edges, r[i], r[i + 1]) {
        if i < |p| - 1 {
          assert Link(edges, p[i], p[i + 1]);
        } else {
          var j := i - (|p| - 1);
          assert Link(edges, q[j], q[j + 1]);
        }
      }
      assert Walk(edges, r);
    }
  }
}
