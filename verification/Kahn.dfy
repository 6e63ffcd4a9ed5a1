/** Topological sorting by Kahn's algorithm, on node identifiers and an edge list. */
module Kahn {
  import opened Prelude
  import opened Nodes
  import opened Edges
  import opened Topology

  /** `order` lists nodes without repetition, each after all sources of its incoming edges. */
  ghost predicate TopoOrder(edges: seq<Edge>, order: seq<NodeId>) {
    && Distinct(order)
    && forall i, e :: 0 <= i < |order| && e in edges && e.target == order[i] ==> e.source in order[..i]
  }

  ghost predicate EndsIn(edges: seq<Edge>, nodes: set<NodeId>) {
    forall e :: e in edges ==> e.source in nodes && e.target in nodes
  }

  /** Positions in a topological order that lists every endpoint form a rank. */
  lemma OrderIsRank(edges: seq<Edge>, order: seq<NodeId>) returns (rank: map<NodeId, nat>)
    requires TopoOrder(edges, order) && EndsIn(edges, Elements(order))
    ensures Ranked(edges, rank)
    ensures forall i :: 0 <= i < |order| ==> order[i] in rank && rank[order[i]] == i
  {
    rank := map v | v in order :: IndexOf(order, v);
    forall i | 0 <= i < |order| ensures rank[order[i]] == i {
      var j := IndexOf(order, order[i]);
    }
    forall e | e in edges
      ensures e.source in rank && e.target in rank && rank[e.source] < rank[e.target]
    {
      assert e.target in Elements(order);
      var i :| 0 <= i < |order| && order[i] == e.target;
      var j :| 0 <= j < i && order[j] == e.source;
    }
  }

  // ----- Counting edges -----

  /** How many of the first `k` edges lead into `v` from a source outside `done`. */
  function CountInto(edges: seq<Edge>, k: nat, done: set<NodeId>, v: NodeId): nat
    requires k <= |edges|
  {
    if k == 0 then 0
    else CountInto(edges, k - 1, done, v)
         + (if edges[k - 1].target == v && edges[k - 1].source !in done then 1 else 0)
  }

  /** How many of the first `k` edges lead from `u` into `v`. */
  function CountBetween(edges: seq<Edge>, k: nat, u: NodeId, v: NodeId): nat
    requires k <= |edges|
  {
    if k == 0 then 0
    else CountBetween(edges, k - 1, u, v)
         + (if edges[k - 1].target == v && edges[k - 1].source == u then 1 else 0)
  }

  lemma {:induction false} DoneSplitsCount(edges: seq<Edge>, k: nat, done: set<NodeId>, u: NodeId, v: NodeId)
    requires k <= |edges| && u !in done
    ensures CountInto(edges, k, done + {u}, v) + CountBetween(edges, k, u, v) == CountInto(edges, k, done, v)
  {
    if k > 0 {
      DoneSplitsCount(edges, k - 1, done, u, v);
    }
  }

  lemma {:induction false} CountGrows(edges: seq<Edge>, k: nat, done: set<NodeId>, v: NodeId)
    requires k <= |edges|
    ensures CountInto(edges, k, done, v) <= CountInto(edges, |edges|, done, v)
    decreases |edges| - k
  {
    if k < |edges| {
      CountGrows(edges, k + 1, done, v);
    }
  }

  lemma {:induction false} CountIsZeroIffAllDone(edges: seq<Edge>, k: nat, done: set<NodeId>, v: NodeId)
    requires k <= |edges|
    ensures CountInto(edges, k, done, v) == 0 <==>
            forall i :: 0 <= i < k && edges[i].target == v ==> edges[i].source in done
  {
    if k > 0 {
      CountIsZeroIffAllDone(edges, k - 1, done, v);
    }
  }

  // ----- The algorithm -----

  /** The in-degree table counts the unprocessed edges into each node. */
  ghost predicate Degrees(edges: seq<Edge>, nodes: set<NodeId>, done: set<NodeId>, inDegree: map<NodeId, nat>) {
    && inDegree.Keys == nodes
    && forall v :: v in nodes ==> inDegree[v] == CountInto(edges, |edges|, done, v)
  }

  /** The queue holds exactly the unprocessed nodes without unprocessed incoming edges. */
  ghost predicate Frontier(nodes: set<NodeId>, done: set<NodeId>, inDegree: map<NodeId, nat>, queue: seq<NodeId>)
    requires inDegree.Keys == nodes
  {
    && Distinct(queue)
    && forall v :: v in queue <==> v in nodes && inDegree[v] == 0 && v !in done
  }

  /** The in-degrees of all nodes, counted edge by edge. */
  method InDegrees(ids: seq<NodeId>, edges: seq<Edge>) returns (inDegree: map<NodeId, nat>)
    requires EndsIn(edges, Elements(ids))
    ensures Degrees(edges, Elements(ids), {}, inDegree)
  {
    inDegree := map v | v in ids :: 0;
    for k := 0 to |edges|
      invariant inDegree.Keys == Elements(ids)
      invariant forall v :: v in Elements(ids) ==> inDegree[v] == CountInto(edges, k, {}, v)
    {
      assert edges[k] in edges;
      inDegree := inDegree[edges[k].target := inDegree[edges[k].target] + 1];
    }
  }

  /** Takes one edge out of the in-degree of `child`, queueing it when that reaches zero. */
  method ReleaseChild(child: NodeId, degrees: map<NodeId, nat>, pending: seq<NodeId>,
                      ghost nodes: set<NodeId>, ghost done: set<NodeId>)
      returns (inDegree: map<NodeId, nat>, queue: seq<NodeId>)
    requires degrees.Keys == nodes && child in nodes && degrees[child] > 0
    requires child !in done && Frontier(nodes, done, degrees, pending)
    ensures inDegree == degrees[child := degrees[child] - 1]
    ensures Frontier(nodes, done, inDegree, queue)
  {
    inDegree := degrees[child := degrees[child] - 1];
    queue := if inDegree[child] == 0 then pending + [child] else pending;
    forall v ensures v in queue <==> v in nodes && inDegree[v] == 0 && v !in done {
      assert v in queue <==> v in pending || (v == child && inDegree[child] == 0);
    }
  }

  /** The in-degree table after the first `k` edges have been searched for children of `node`. */
  ghost predicate Releasing(
      edges: seq<Edge>, k: nat, node: NodeId, nodes: set<NodeId>, done: set<NodeId>,
      inDegree: map<NodeId, nat>)
  {
    && k <= |edges|
    && inDegree.Keys == nodes
    && forall v :: v in nodes ==> inDegree[v] + CountBetween(edges, k, node, v) == CountInto(edges, |edges|, done, v)
  }

  lemma ChildIsOpen(
      edges: seq<Edge>, k: nat, node: NodeId, nodes: set<NodeId>, done: set<NodeId>,
      inDegree: map<NodeId, nat>)
    requires k < |edges| && Releasing(edges, k, node, nodes, done, inDegree)
    requires node !in done && edges[k].source == node && edges[k].target in nodes
    ensures inDegree[edges[k].target] > 0
    ensures Releasing(edges, k + 1, node, nodes, done, inDegree[edges[k].target := inDegree[edges[k].target] - 1])
    ensures CountInto(edges, |edges|, done, edges[k].target) > 0
  {
    DoneSplitsCount(edges, k + 1, done, node, edges[k].target);
    CountGrows(edges, k + 1, done, edges[k].target);
  }

  lemma NothingReleased(
      edges: seq<Edge>, node: NodeId, nodes: set<NodeId>, done: set<NodeId>, inDegree: map<NodeId, nat>)
    requires Degrees(edges, nodes, done, inDegree)
    ensures Releasing(edges, 0, node, nodes, done, inDegree)
  {
  }

  lemma OtherEdge(
      edges: seq<Edge>, k: nat, node: NodeId, nodes: set<NodeId>, done: set<NodeId>,
      inDegree: map<NodeId, nat>)
    requires k < |edges| && Releasing(edges, k, node, nodes, done, inDegree) && edges[k].source != node
    ensures Releasing(edges, k + 1, node, nodes, done, inDegree)
  {
  }

  lemma ReleasedAll(edges: seq<Edge>, node: NodeId, nodes: set<NodeId>, done: set<NodeId>, inDegree: map<NodeId, nat>)
    requires node !in done && Releasing(edges, |edges|, node, nodes, done, inDegree)
    ensures Degrees(edges, nodes, done + {node}, inDegree)
  {
    forall v | v in nodes ensures inDegree[v] == CountInto(edges, |edges|, done + {node}, v) {
      DoneSplitsCount(edges, |edges|, done, node, v);
    }
  }

  /** Decrements the in-degree of each child of `node`, once for every edge between them. */
  method ReleaseChildren(edges: seq<Edge>, node: NodeId, degrees: map<NodeId, nat>, pending: seq<NodeId>,
                         ghost nodes: set<NodeId>, ghost done: set<NodeId>)
      returns (inDegree: map<NodeId, nat>, queue: seq<NodeId>)
    requires EndsIn(edges, nodes) && node !in done
    requires Degrees(edges, nodes, done, degrees)
    requires forall v :: v in done || v == node ==> CountInto(edges, |edges|, done, v) == 0
    requires Frontier(nodes, done + {node}, degrees, pending)
    ensures Degrees(edges, nodes, done + {node}, inDegree)
    ensures Frontier(nodes, done + {node}, inDegree, queue)
  {
    hide CountInto, CountBetween;
    inDegree, queue := degrees, pending;
    NothingReleased(edges, node, nodes, done, degrees);
    for k := 0 to |edges|
      invariant Releasing(edges, k, node, nodes, done, inDegree)
      invariant Frontier(nodes, done + {node}, inDegree, queue)
    {
      if edges[k].source != node {
        OtherEdge(edges, k, node, nodes, done, inDegree);
      } else {
        assert edges[k].target in nodes by { assert edges[k] in edges; }
        ChildIsOpen(edges, k, node, nodes, done, inDegree);
        inDegree, queue := ReleaseChild(edges[k].target, inDegree, queue, nodes, done + {node});
      }
    }
    ReleasedAll(edges, node, nodes, done, inDegree);
  }

  lemma ExtendOrder(edges: seq<Edge>, order: seq<NodeId>, node: NodeId)
    requires TopoOrder(edges, order) && node !in order
    requires CountInto(edges, |edges|, Elements(order), node) == 0
    ensures TopoOrder(edges, order + [node]) && Elements(order + [node]) == Elements(order) + {node}
  {
    CountIsZeroIffAllDone(edges, |edges|, Elements(order), node);
    var longer := order + [node];
    forall i, e | 0 <= i < |longer| && e in edges && e.target == longer[i]
      ensures e.source in longer[..i]
    {
      if i < |order| {
        assert longer[..i] == order[..i];
      } else {
        assert longer[..i] == order;
        var k :| 0 <= k < |edges| && edges[k] == e;
        assert e.source in Elements(order);
      }
    }
  }

  lemma SortedNodesHaveNoOpenEdges(edges: seq<Edge>, order: seq<NodeId>)
    requires TopoOrder(edges, order)
    ensures forall v :: v in order ==> CountInto(edges, |edges|, Elements(order), v) == 0
  {
    forall v | v in order ensures CountInto(edges, |edges|, Elements(order), v) == 0 {
      var j :| 0 <= j < |order| && order[j] == v;
      forall i | 0 <= i < |edges| && edges[i].target == v ensures edges[i].source in Elements(order) {
        assert edges[i] in edges && edges[i].source in order[..j];
      }
      CountIsZeroIffAllDone(edges, |edges|, Elements(order), v);
    }
  }

  /** Lists the nodes in dependency order; the list is complete exactly when the graph has no cycle. */
  method TopologicalSort(ids: seq<NodeId>, edges: seq<Edge>) returns (sorted: seq<NodeId>)
    requires Distinct(ids) && EndsIn(edges, Elements(ids))
    ensures TopoOrder(edges, sorted) && Elements(sorted) <= Elements(ids)
    ensures |sorted| == |ids| <==> Elements(sorted) == Elements(ids)
    ensures |sorted| == |ids| <==> !HasCycle(edges)
  {
    var inDegree := InDegrees(ids, edges);
    var queue := InitialQueue(ids, inDegree);
    sorted := [];
    ghost var nodes := Elements(ids);
    assert Elements(sorted) == {};
    while queue != []
      invariant TopoOrder(edges, sorted) && Elements(sorted) <= nodes
      invariant Degrees(edges, nodes, Elements(sorted), inDegree)
      invariant Frontier(nodes, Elements(sorted), inDegree, queue)
      decreases nodes - Elements(sorted)
    {
      var node := queue[0];
      assert node in queue;
      assert Frontier(nodes, Elements(sorted) + {node}, inDegree, queue[1..]) by {
        forall v ensures v in queue[1..] <==> v in queue && v != node {
          if v in queue && v != node {
            var i :| 0 <= i < |queue| && queue[i] == v;
            assert queue[1..][i - 1] == v;
          }
        }
      }
      ghost var done := Elements(sorted);
      SortedNodesHaveNoOpenEdges(edges, sorted);
      ExtendOrder(edges, sorted, node);
      sorted := sorted + [node];
      inDegree, queue := ReleaseChildren(edges, node, inDegree, queue[1..], nodes, done);
    }
    StuckMeansCycle(edges, nodes, sorted, inDegree);
    DistinctCardinality(ids);
    DistinctCardinality(sorted);
    SubsetCardinality(Elements(sorted), nodes);
  }

  method InitialQueue(ids: seq<NodeId>, inDegree: map<NodeId, nat>) returns (queue: seq<NodeId>)
    requires Distinct(ids) && inDegree.Keys == Elements(ids)
    ensures Frontier(Elements(ids), {}, inDegree, queue)
  {
    queue := [];
    for i := 0 to |ids|
      invariant Distinct(queue)
      invariant forall v :: v in queue <==> v in ids[..i] && inDegree[v] == 0
    {
      if inDegree[ids[i]] == 0 {
        queue := queue + [ids[i]];
      }
    }
    assert ids[..|ids|] == ids;
  }

  /** When the queue runs empty, the order is complete or the rest of the graph is cyclic. */
  lemma StuckMeansCycle(edges: seq<Edge>, nodes: set<NodeId>, sorted: seq<NodeId>, inDegree: map<NodeId, nat>)
    requires EndsIn(edges, nodes) && TopoOrder(edges, sorted) && Elements(sorted) <= nodes
    requires Degrees(edges, nodes, Elements(sorted), inDegree)
    requires Frontier(nodes, Elements(sorted), inDegree, [])
    ensures Elements(sorted) == nodes <==> !HasCycle(edges)
  {
    if Elements(sorted) == nodes {
      var rank := OrderIsRank(edges, sorted);
      RankedHasNoCycle(edges, rank);
    } else {
      var stuck := nodes - Elements(sorted);
      if stuck == {} {
        forall v | v in nodes ensures v in Elements(sorted) {
          assert v !in stuck;
        }
        assert false;
      }
      forall v | v in stuck ensures HasLinkFrom(edges, stuck, v) {
        assert v !in [] && inDegree[v] != 0;
        CountIsZeroIffAllDone(edges, |edges|, Elements(sorted), v);
        var i :| 0 <= i < |edges| && edges[i].target == v && edges[i].source !in Elements(sorted);
        assert edges[i] in edges && Link(edges, edges[i].source, v);
      }
      StuckSetHasCycle(edges, stuck);
    }
  }
}
