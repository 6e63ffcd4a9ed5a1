/** The adjacency structure under an execution graph: a node list addressed by
    index and an arc list of index pairs, both removed from by swapping. */
module DiGraphs {
  import opened Nodes
  import opened Edges
  import opened Propagation

  datatype Arc = Arc(source: nat, target: nat, weight: Edge)

  datatype DiGraph = DiGraph(nodes: seq<Node>, arcs: seq<Arc>)

  function Ids(nodes: seq<Node>): (ids: seq<NodeId>)
    ensures |ids| == |nodes| && forall i :: 0 <= i < |nodes| ==> ids[i] == nodes[i].id
  {
    seq(|nodes|, i requires 0 <= i < |nodes| => nodes[i].id)
  }

  function Weights(arcs: seq<Arc>): (edges: seq<Edge>)
    ensures |edges| == |arcs| && forall k :: 0 <= k < |arcs| ==> edges[k] == arcs[k].weight
  {
    seq(|arcs|, k requires 0 <= k < |arcs| => arcs[k].weight)
  }

  ghost predicate UniqueIds(nodes: seq<Node>) {
    forall i, j :: 0 <= i < j < |nodes| ==> nodes[i].id != nodes[j].id
  }

  /** The lookup table is exactly the bijection between identifiers and indices. */
  ghost predicate Indexed(nodes: seq<Node>, indexMap: map<NodeId, nat>) {
    && (forall i :: 0 <= i < |nodes| ==> nodes[i].id in indexMap && indexMap[nodes[i].id] == i)
    && forall id :: id in indexMap ==> indexMap[id] < |nodes| && nodes[indexMap[id]].id == id
  }

  /** Arcs stay in range and carry the identifiers of the nodes they join. */
  ghost predicate Anchored(g: DiGraph) {
    forall a :: a in g.arcs ==>
      && a.source < |g.nodes| && a.target < |g.nodes|
      && a.weight.source == g.nodes[a.source].id && a.weight.target == g.nodes[a.target].id
  }

  ghost predicate Rep(g: DiGraph, indexMap: map<NodeId, nat>) {
    UniqueIds(g.nodes) && Indexed(g.nodes, indexMap) && Anchored(g)
  }

  // ----- The identifier-level view -----

  function Lookup(g: DiGraph, indexMap: map<NodeId, nat>): (m: map<NodeId, Node>)
    requires Indexed(g.nodes, indexMap)
    ensures m.Keys == indexMap.Keys && forall id :: id in m ==> m[id] == g.nodes[indexMap[id]] && m[id].id == id
  {
    map id | id in indexMap :: g.nodes[indexMap[id]]
  }

  function StatesOf(m: map<NodeId, Node>): (s: States)
    ensures s.Keys == m.Keys
  {
    map id | id in m :: m[id].state
  }

  /** The same nodes in other states. */
  function WithStates(m: map<NodeId, Node>, s: States): (r: map<NodeId, Node>)
    requires s.Keys == m.Keys
    ensures r.Keys == m.Keys && StatesOf(r) == s
  {
    map id | id in m :: m[id].(state := s[id])
  }

  function Sources(edges: seq<Edge>, v: NodeId): set<NodeId> {
    set e | e in edges && e.target == v :: e.source
  }

  /** Every node's dependency set holds at least the sources of its incoming edges. */
  ghost predicate DependenciesCover(m: map<NodeId, Node>, edges: seq<Edge>) {
    forall v :: v in m ==> Sources(edges, v) <= m[v].dependencies
  }

  /** Every node's dependency set is exactly the sources of its incoming edges. */
  ghost predicate DependenciesExact(m: map<NodeId, Node>, edges: seq<Edge>) {
    forall v :: v in m ==> m[v].dependencies == Sources(edges, v)
  }

  lemma RepCovers(g: DiGraph, indexMap: map<NodeId, nat>)
    requires Rep(g, indexMap)
    ensures Covers(Weights(g.arcs), StatesOf(Lookup(g, indexMap)))
  {
    forall e | e in Weights(g.arcs)
      ensures e.source in indexMap && e.target in indexMap
    {
      var k :| 0 <= k < |g.arcs| && g.arcs[k].weight == e;
      assert g.arcs[k] in g.arcs;
    }
  }

  // ----- Node tests by index -----

  predicate ReadyAt(g: DiGraph, i: nat)
    requires Anchored(g) && i < |g.nodes|
  {
    && g.nodes[i].state == Pending
    && forall a :: a in g.arcs && a.target == i ==> Satisfied(g.nodes[a.source].state, a.weight)
  }

  predicate ImpossibleAt(g: DiGraph, i: nat)
    requires Anchored(g) && i < |g.nodes|
  {
    && g.nodes[i].state == Pending
    && exists a :: a in g.arcs && a.target == i
                   && g.nodes[a.source].state.IsTerminal() && !Satisfied(g.nodes[a.source].state, a.weight)
  }

  /** The arc behind an edge of the identifier view. */
  lemma ArcOf(g: DiGraph, indexMap: map<NodeId, nat>, e: Edge) returns (a: Arc)
    requires Rep(g, indexMap) && e in Weights(g.arcs)
    ensures a in g.arcs && a.weight == e
    ensures e.source in indexMap && e.target in indexMap
    ensures a.source == indexMap[e.source] && a.target == indexMap[e.target]
  {
    var k :| 0 <= k < |g.arcs| && g.arcs[k].weight == e;
    a := g.arcs[k];
    assert a in g.arcs;
  }

  lemma WeightOf(g: DiGraph, a: Arc)
    requires a in g.arcs
    ensures a.weight in Weights(g.arcs)
  {
    var k :| 0 <= k < |g.arcs| && g.arcs[k] == a;
    assert Weights(g.arcs)[k] == a.weight;
  }

  lemma ReadyByIndex(g: DiGraph, indexMap: map<NodeId, nat>, i: nat)
    requires Rep(g, indexMap) && i < |g.nodes|
    ensures Covers(Weights(g.arcs), StatesOf(Lookup(g, indexMap)))
    ensures ReadyAt(g, i) <==> IsReady(Weights(g.arcs), StatesOf(Lookup(g, indexMap)), g.nodes[i].id)
  {
    RepCovers(g, indexMap);
    var edges, s, v := Weights(g.arcs), StatesOf(Lookup(g, indexMap)), g.nodes[i].id;
    if ReadyAt(g, i) {
      forall e | e in edges && e.target == v ensures Satisfied(s[e.source], e) {
        var a := ArcOf(g, indexMap, e);
      }
    }
    if IsReady(edges, s, v) {
      forall a | a in g.arcs && a.target == i ensures Satisfied(g.nodes[a.source].state, a.weight) {
        WeightOf(g, a);
      }
    }
  }

  lemma ImpossibleByIndex(g: DiGraph, indexMap: map<NodeId, nat>, i: nat)
    requires Rep(g, indexMap) && i < |g.nodes|
    ensures Covers(Weights(g.arcs), StatesOf(Lookup(g, indexMap)))
    ensures ImpossibleAt(g, i) <==> Impossible(Weights(g.arcs), StatesOf(Lookup(g, indexMap)), g.nodes[i].id)
  {
    RepCovers(g, indexMap);
    var edges, s, v := Weights(g.arcs), StatesOf(Lookup(g, indexMap)), g.nodes[i].id;
    if ImpossibleAt(g, i) {
      var a :| a in g.arcs && a.target == i
               && g.nodes[a.source].state.IsTerminal() && !Satisfied(g.nodes[a.source].state, a.weight);
      WeightOf(g, a);
      assert Refuses(s, a.weight);
    }
    if Impossible(edges, s, v) {
      var e :| e in edges && e.target == v && Refuses(s, e);
      var a := ArcOf(g, indexMap, e);
    }
  }

  // ----- Removal by swapping -----

  /** Removes position `k`, moving the last element into its place. */
  function SwapRemove<T>(s: seq<T>, k: nat): (r: seq<T>)
    requires k < |s|
    ensures |r| == |s| - 1
  {
    s[k := s[|s| - 1]][..|s| - 1]
  }

  lemma SwapRemoveContents<T>(s: seq<T>, k: nat)
    requires k < |s|
    ensures multiset(SwapRemove(s, k)) == multiset(s) - multiset{s[k]}
    ensures forall x :: x in SwapRemove(s, k) ==> x in s
  {
    var last, r := s[|s| - 1], SwapRemove(s, k);
    assert s == s[..k] + [s[k]] + s[k + 1..];
    if k < |s| - 1 {
      assert s[k + 1..] == s[k + 1..|s| - 1] + [last];
      assert r == s[..k] + [last] + s[k + 1..|s| - 1];
    } else {
      assert r == s[..k];
    }
    forall x | x in r ensures x in s {
      var i :| 0 <= i < |r| && r[i] == x;
    }
  }

  predicate Touches(a: Arc, i: nat) {
    a.source == i || a.target == i
  }

  /** The arc with the index `from` renamed to `to`. */
  function Reindex(a: Arc, from: nat, to: nat): Arc {
    Arc(if a.source == from then to else a.source, if a.target == from then to else a.target, a.weight)
  }

  function ReindexAll(arcs: seq<Arc>, from: nat, to: nat): (r: seq<Arc>)
    ensures |r| == |arcs| && forall k :: 0 <= k < |arcs| ==> r[k] == Reindex(arcs[k], from, to)
  {
    seq(|arcs|, k requires 0 <= k < |arcs| => Reindex(arcs[k], from, to))
  }

  /** `fewer` holds the edges of `edges` that do not touch node `id`, as often as they occur there. */
  ghost predicate EdgesWithout(edges: seq<Edge>, id: NodeId, fewer: seq<Edge>) {
    forall e: Edge :: multiset(fewer)[e] == if e.source == id || e.target == id then 0 else multiset(edges)[e]
  }

  /** The arcs still to be dropped all touch `id`, and every other arc is still there. */
  ghost predicate DroppingArcs(all: seq<Arc>, arcs: seq<Arc>, id: NodeId) {
    && (forall a :: a in arcs ==> a in all)
    && forall e: Edge :: e.source != id && e.target != id ==> multiset(Weights(arcs))[e] == multiset(Weights(all))[e]
  }

  lemma DropArc(all: seq<Arc>, arcs: seq<Arc>, k: nat, id: NodeId)
    requires DroppingArcs(all, arcs, id) && k < |arcs|
    requires arcs[k].weight.source == id || arcs[k].weight.target == id
    ensures DroppingArcs(all, SwapRemove(arcs, k), id)
  {
    SwapRemoveContents(arcs, k);
    assert Weights(SwapRemove(arcs, k)) == SwapRemove(Weights(arcs), k);
    SwapRemoveContents(Weights(arcs), k);
  }

  lemma AllDropped(g: DiGraph, arcs: seq<Arc>, idx: nat)
    requires Anchored(g) && UniqueIds(g.nodes) && idx < |g.nodes|
    requires DroppingArcs(g.arcs, arcs, g.nodes[idx].id)
    requires forall a :: a in arcs ==> !Touches(a, idx)
    ensures EdgesWithout(Weights(g.arcs), g.nodes[idx].id, Weights(arcs))
  {
    var id := g.nodes[idx].id;
    forall e: Edge | e.source == id || e.target == id ensures e !in multiset(Weights(arcs)) {
      forall k | 0 <= k < |arcs| ensures arcs[k].weight != e {
        assert arcs[k] in g.arcs && !Touches(arcs[k], idx);
      }
    }
  }

  lemma ReindexKeepsAnchors(g: DiGraph, arcs: seq<Arc>, idx: nat)
    requires Anchored(g) && idx < |g.nodes|
    requires forall a :: a in arcs ==> a in g.arcs && !Touches(a, idx)
    ensures Anchored(DiGraph(SwapRemove(g.nodes, idx), ReindexAll(arcs, |g.nodes| - 1, idx)))
    ensures Weights(ReindexAll(arcs, |g.nodes| - 1, idx)) == Weights(arcs)
  {
    var last := |g.nodes| - 1;
    forall a | a in ReindexAll(arcs, last, idx)
      ensures a.source < last && a.target < last
      ensures a.weight.source == SwapRemove(g.nodes, idx)[a.source].id
      ensures a.weight.target == SwapRemove(g.nodes, idx)[a.target].id
    {
      var k :| 0 <= k < |arcs| && ReindexAll(arcs, last, idx)[k] == a;
      assert arcs[k] in g.arcs && !Touches(arcs[k], idx);
    }
  }

  /** Removes node `idx` and its arcs: arcs one by one in some order, each replaced
      by the last; then the node, replaced by the last node, whose arcs are renamed. */
  method RemoveNode(g: DiGraph, idx: nat) returns (r: DiGraph)
    requires Anchored(g) && UniqueIds(g.nodes) && idx < |g.nodes|
    ensures r.nodes == SwapRemove(g.nodes, idx)
    ensures Anchored(r)
    ensures EdgesWithout(Weights(g.arcs), g.nodes[idx].id, Weights(r.arcs))
  {
    var arcs := g.arcs;
    while exists a :: a in arcs && Touches(a, idx)
      invariant DroppingArcs(g.arcs, arcs, g.nodes[idx].id)
      decreases |arcs|
    {
      var k :| 0 <= k < |arcs| && Touches(arcs[k], idx);
      assert arcs[k] in g.arcs;
      DropArc(g.arcs, arcs, k, g.nodes[idx].id);
      arcs := SwapRemove(arcs, k);
    }
    AllDropped(g, arcs, idx);
    ReindexKeepsAnchors(g, arcs, idx);
    r := DiGraph(SwapRemove(g.nodes, idx), ReindexAll(arcs, |g.nodes| - 1, idx));
  }
}
