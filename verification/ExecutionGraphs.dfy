/** The execution graph: a validated DAG of nodes with an identifier index. */
module ExecutionGraphs {
  import opened Prelude
  import opened Nodes
  import opened Edges
  import opened Topology
  import opened Propagation
  import opened EdgeRules
  import opened DiGraphs
  import Kahn
  import Outcomes

  datatype GraphError =
    | InvalidConfiguration(message: string)
    | UnsupportedOutputCondition
    | NodeNotFound(id: NodeId)
    | CycleDetected
    | GlobalTimeout
    | Interrupted
    | Serialization(message: string)

  /** `h` is `g` with other node states. */
  ghost predicate SameButStates(g: DiGraph, h: DiGraph) {
    && h.arcs == g.arcs && |h.nodes| == |g.nodes|
    && forall i :: 0 <= i < |g.nodes| ==> h.nodes[i] == g.nodes[i].(state := h.nodes[i].state)
  }

  lemma SameButStatesKeepsRep(g: DiGraph, h: DiGraph, indexMap: map<NodeId, nat>)
    requires Rep(g, indexMap) && SameButStates(g, h)
    ensures Rep(h, indexMap)
    ensures Lookup(h, indexMap) == WithStates(Lookup(g, indexMap), StatesOf(Lookup(h, indexMap)))
  {
  }

  /** The indices below `n` of impossible nodes, in order. */
  function ImpossibleIndices(g: DiGraph, n: nat): (found: seq<nat>)
    requires Anchored(g) && n <= |g.nodes|
    ensures forall i :: i in found <==> 0 <= i < n && ImpossibleAt(g, i)
  {
    if n == 0 then []
    else ImpossibleIndices(g, n - 1) + (if ImpossibleAt(g, n - 1) then [n - 1] else [])
  }

  /** The identifiers of the ready nodes among the first `n`, in index order. */
  function ReadyIds(g: DiGraph, n: nat): (found: seq<NodeId>)
    requires Anchored(g) && n <= |g.nodes|
    ensures forall id :: id in found <==> exists i :: 0 <= i < n && ReadyAt(g, i) && g.nodes[i].id == id
  {
    if n == 0 then []
    else ReadyIds(g, n - 1) + (if ReadyAt(g, n - 1) then [g.nodes[n - 1].id] else [])
  }

  lemma {:induction false} ReadyIdsDistinct(g: DiGraph, n: nat)
    requires Anchored(g) && UniqueIds(g.nodes) && n <= |g.nodes|
    ensures Distinct(ReadyIds(g, n))
  {
    if n > 0 {
      ReadyIdsDistinct(g, n - 1);
      assert g.nodes[n - 1].id !in ReadyIds(g, n - 1);
    }
  }

  method SkipIndices(g: DiGraph, indices: seq<nat>) returns (h: DiGraph)
    requires forall i :: i in indices ==> i < |g.nodes|
    ensures SameButStates(g, h)
    ensures forall i :: 0 <= i < |g.nodes| ==> h.nodes[i].state == if i in indices then Skipped else g.nodes[i].state
  {
    h := g;
    for k := 0 to |indices|
      invariant SameButStates(g, h)
      invariant forall i :: 0 <= i < |g.nodes| ==>
                  h.nodes[i].state == if i in indices[..k] then Skipped else g.nodes[i].state
    {
      assert indices[..k + 1] == indices[..k] + [indices[k]];
      assert indices[k] in indices;
      h := h.(nodes := h.nodes[indices[k] := h.nodes[indices[k]].(state := Skipped)]);
    }
    assert indices[..|indices|] == indices;
  }

  /** Skipping exactly the impossible indices is one round of propagation. */
  lemma SkippedIndicesAreARound(g: DiGraph, h: DiGraph, indexMap: map<NodeId, nat>)
    requires Rep(g, indexMap) && SameButStates(g, h)
    requires forall i :: 0 <= i < |g.nodes| ==>
               h.nodes[i].state == if ImpossibleAt(g, i) then Skipped else g.nodes[i].state
    ensures Rep(h, indexMap) && Covers(Weights(g.arcs), StatesOf(Lookup(g, indexMap)))
    ensures StatesOf(Lookup(h, indexMap)) == SkipRound(Weights(g.arcs), StatesOf(Lookup(g, indexMap)))
  {
    hide Impossible, ImpossibleAt, Covers, Anchored, UniqueIds;
    RepCovers(g, indexMap);
    SameButStatesKeepsRep(g, h, indexMap);
    forall id | id in indexMap
      ensures StatesOf(Lookup(h, indexMap))[id] == SkipRound(Weights(g.arcs), StatesOf(Lookup(g, indexMap)))[id]
    {
      ImpossibleByIndex(g, indexMap, indexMap[id]);
    }
  }

  /** Some impossible index means the round changes the states. */
  lemma RoundChanges(g: DiGraph, h: DiGraph, indexMap: map<NodeId, nat>, i: nat)
    requires Rep(g, indexMap) && SameButStates(g, h) && i < |g.nodes|
    requires g.nodes[i].state.Pending? && h.nodes[i].state.Skipped?
    ensures StatesOf(Lookup(h, indexMap)) != StatesOf(Lookup(g, indexMap))
  {
    assert StatesOf(Lookup(h, indexMap))[g.nodes[i].id] == Skipped;
    assert StatesOf(Lookup(g, indexMap))[g.nodes[i].id] == Pending;
  }

  lemma ReadyIdsAreReady(g: DiGraph, indexMap: map<NodeId, nat>)
    requires Rep(g, indexMap)
    ensures Covers(Weights(g.arcs), StatesOf(Lookup(g, indexMap)))
    ensures forall id :: id in ReadyIds(g, |g.nodes|) <==>
              id in indexMap && IsReady(Weights(g.arcs), StatesOf(Lookup(g, indexMap)), id)
  {
    RepCovers(g, indexMap);
    forall id | id in indexMap
      ensures id in ReadyIds(g, |g.nodes|) <==> IsReady(Weights(g.arcs), StatesOf(Lookup(g, indexMap)), id)
    {
      ReadyByIndex(g, indexMap, indexMap[id]);
    }
  }

  // ----- The invariant on values -----

  ghost predicate Sound(g: DiGraph, indexMap: map<NodeId, nat>) {
    && Rep(g, indexMap)
    && !HasCycle(Weights(g.arcs))
    && DependenciesCover(Lookup(g, indexMap), Weights(g.arcs))
  }

  lemma SoundParts(g: DiGraph, indexMap: map<NodeId, nat>)
    requires Sound(g, indexMap)
    ensures Rep(g, indexMap) && Indexed(g.nodes, indexMap) && Anchored(g) && UniqueIds(g.nodes)
    ensures Covers(Weights(g.arcs), StatesOf(Lookup(g, indexMap)))
    ensures forall id :: id in indexMap ==> indexMap[id] < |g.nodes|
  {
    RepCovers(g, indexMap);
  }

  lemma SameButStatesKeepsSound(g: DiGraph, h: DiGraph, indexMap: map<NodeId, nat>)
    requires Sound(g, indexMap) && SameButStates(g, h)
    ensures Sound(h, indexMap)
    ensures Lookup(h, indexMap) == WithStates(Lookup(g, indexMap), StatesOf(Lookup(h, indexMap)))
    ensures Ids(h.nodes) == Ids(g.nodes)
  {
    SameButStatesKeepsRep(g, h, indexMap);
  }

  /** Repeatedly skips every impossible node until there is none. */
  method PropagateSkips(g: DiGraph, ghost indexMap: map<NodeId, nat>) returns (h: DiGraph)
    requires Sound(g, indexMap)
    ensures Sound(h, indexMap) && SameButStates(g, h) && Ids(h.nodes) == Ids(g.nodes)
    ensures Covers(Weights(g.arcs), StatesOf(Lookup(g, indexMap)))
    ensures StatesOf(Lookup(h, indexMap)) == SkipAll(Weights(g.arcs), StatesOf(Lookup(g, indexMap)))
    ensures Lookup(h, indexMap) == WithStates(Lookup(g, indexMap), StatesOf(Lookup(h, indexMap)))
  {
    h := g;
    RepCovers(g, indexMap);
    ghost var edges := Weights(g.arcs);
    while true
      invariant Rep(h, indexMap) && SameButStates(g, h)
      invariant Covers(edges, StatesOf(Lookup(h, indexMap)))
      invariant SkipAll(edges, StatesOf(Lookup(h, indexMap))) == SkipAll(edges, StatesOf(Lookup(g, indexMap)))
      decreases Pendings(StatesOf(Lookup(h, indexMap)))
    {
      var impossible := ImpossibleIndices(h, |h.nodes|);
      var next := SkipIndices(h, impossible);
      NextRound(h, next, indexMap, impossible);
      if impossible == [] {
        break;
      }
      SkippedRoundShrinks(edges, StatesOf(Lookup(h, indexMap)));
      h := next;
    }
    SameButStatesKeepsSound(g, h, indexMap);
  }

  lemma NextRound(h: DiGraph, next: DiGraph, indexMap: map<NodeId, nat>, impossible: seq<nat>)
    requires Rep(h, indexMap) && SameButStates(h, next)
    requires impossible == ImpossibleIndices(h, |h.nodes|)
    requires forall i :: 0 <= i < |h.nodes| ==>
               next.nodes[i].state == if i in impossible then Skipped else h.nodes[i].state
    ensures Rep(next, indexMap) && Covers(Weights(h.arcs), StatesOf(Lookup(h, indexMap)))
    ensures StatesOf(Lookup(next, indexMap)) == SkipRound(Weights(h.arcs), StatesOf(Lookup(h, indexMap)))
    ensures impossible == [] <==> next == h
    ensures impossible != [] ==> StatesOf(Lookup(next, indexMap)) != StatesOf(Lookup(h, indexMap))
  {
    hide Rep, Lookup, Weights, StatesOf, Covers, SkipRound;
    SkippedIndicesAreARound(h, next, indexMap);
    if impossible == [] {
      assert next.nodes == h.nodes;
    } else {
      assert impossible[0] in impossible;
      RoundChanges(h, next, indexMap, impossible[0]);
    }
  }

  // ----- Adding -----

  lemma AppendedNode(g: DiGraph, indexMap: map<NodeId, nat>, node: Node)
    requires Rep(g, indexMap) && node.id !in indexMap
    ensures var h, index := g.(nodes := g.nodes + [node]), indexMap[node.id := |g.nodes|];
            Rep(h, index) && Lookup(h, index) == Lookup(g, indexMap)[node.id := node]
  {
    var h, index := g.(nodes := g.nodes + [node]), indexMap[node.id := |g.nodes|];
    AppendedIndex(g.nodes, indexMap, node);
    forall a | a in h.arcs
      ensures a.source < |h.nodes| && a.target < |h.nodes|
      ensures a.weight.source == h.nodes[a.source].id && a.weight.target == h.nodes[a.target].id
    {
      assert a in g.arcs;
    }
  }

  lemma AppendedIndex(nodes: seq<Node>, indexMap: map<NodeId, nat>, node: Node)
    requires UniqueIds(nodes) && Indexed(nodes, indexMap) && node.id !in indexMap
    ensures UniqueIds(nodes + [node]) && Indexed(nodes + [node], indexMap[node.id := |nodes|])
  {
  }

  lemma AddedNode(g: DiGraph, indexMap: map<NodeId, nat>, node: Node)
    requires Sound(g, indexMap) && node.id !in indexMap
    ensures var h, index := g.(nodes := g.nodes + [node]), indexMap[node.id := |g.nodes|];
            && Sound(h, index)
            && Lookup(h, index) == Lookup(g, indexMap)[node.id := node]
            && (DependenciesExact(Lookup(g, indexMap), Weights(g.arcs)) && node.dependencies == {} ==>
                DependenciesExact(Lookup(h, index), Weights(h.arcs)))
  {
    hide Rep, HasCycle;
    AppendedNode(g, indexMap, node);
    NewNodeHasNoEdges(g, indexMap, node.id);
  }

  lemma AddedArc(g: DiGraph, indexMap: map<NodeId, nat>, edge: Edge)
    requires Rep(g, indexMap) && edge.source in indexMap && edge.target in indexMap
    ensures var h := g.(arcs := g.arcs + [Arc(indexMap[edge.source], indexMap[edge.target], edge)]);
            Rep(h, indexMap) && Weights(h.arcs) == Weights(g.arcs) + [edge]
  {
  }

  /** Replacing a node by one with the same identifier. */
  lemma ReplacedNode(g: DiGraph, indexMap: map<NodeId, nat>, node: Node)
    requires Rep(g, indexMap) && node.id in indexMap
    ensures var h := g.(nodes := g.nodes[indexMap[node.id] := node]);
            && Rep(h, indexMap) && Ids(h.nodes) == Ids(g.nodes)
            && Lookup(h, indexMap) == Lookup(g, indexMap)[node.id := node]
  {
  }

  lemma DependencyAdded(m: map<NodeId, Node>, edges: seq<Edge>, edge: Edge)
    requires edge.target in m && DependenciesCover(m, edges)
    ensures DependenciesCover(WithDependency(m, edge), edges + [edge])
    ensures DependenciesExact(m, edges) ==> DependenciesExact(WithDependency(m, edge), edges + [edge])
  {
    AddedSource(edges, edge);
  }

  lemma EmptyHasNoCycle()
    ensures !HasCycle([])
  {
    assert Ranked([], map[]);
    RankedHasNoCycle([], map[]);
  }

  lemma NewNodeHasNoEdges(g: DiGraph, indexMap: map<NodeId, nat>, id: NodeId)
    requires Rep(g, indexMap) && id !in indexMap
    ensures Sources(Weights(g.arcs), id) == {}
  {
    forall e | e in Weights(g.arcs) ensures e.target != id {
      var a := ArcOf(g, indexMap, e);
    }
  }

  function WithDependency(m: map<NodeId, Node>, edge: Edge): map<NodeId, Node>
    requires edge.target in m
  {
    m[edge.target := m[edge.target].(dependencies := m[edge.target].dependencies + {edge.source})]
  }

  lemma AddedSource(edges: seq<Edge>, edge: Edge)
    ensures forall v :: Sources(edges + [edge], v) == Sources(edges, v) + if v == edge.target then {edge.source} else {}
  {
  }

  method IsCyclicDirected(g: DiGraph, ghost indexMap: map<NodeId, nat>) returns (cyclic: bool)
    requires Rep(g, indexMap)
    ensures cyclic <==> HasCycle(Weights(g.arcs))
  {
    RepCovers(g, indexMap);
    assert Kahn.EndsIn(Weights(g.arcs), Elements(Ids(g.nodes))) by {
      forall id | id in indexMap ensures id in Elements(Ids(g.nodes)) {
        assert Ids(g.nodes)[indexMap[id]] == id;
      }
    }
    var order := Kahn.TopologicalSort(Ids(g.nodes), Weights(g.arcs));
    cyclic := |order| != |g.nodes|;
  }

  lemma SelfLinkIsCycle(edges: seq<Edge>, v: NodeId)
    requires Link(edges, v, v)
    ensures HasCycle(edges)
  {
    assert Walk(edges, [v, v]);
  }

  // ----- Removing -----

  /** The nodes left after removing `id`, without `id` among the dependencies of the
      nodes it had edges into. */
  function WithoutNode(m: map<NodeId, Node>, edges: seq<Edge>, id: NodeId): map<NodeId, Node> {
    map v | v in m && v != id ::
      if id in Sources(edges, v) then m[v].(dependencies := m[v].dependencies - {id}) else m[v]
  }

  /** Takes `id` out of the dependency set of every node that index `idx` has an arc to. */
  method DropDependency(g: DiGraph, idx: nat, id: NodeId) returns (r: DiGraph)
    requires Anchored(g)
    ensures r.arcs == g.arcs && |r.nodes| == |g.nodes|
    ensures forall i :: 0 <= i < |g.nodes| ==> r.nodes[i].id == g.nodes[i].id
    ensures forall i :: 0 <= i < |g.nodes| ==>
              r.nodes[i] == if exists a :: a in g.arcs && a.source == idx && a.target == i
                            then g.nodes[i].(dependencies := g.nodes[i].dependencies - {id}) else g.nodes[i]
  {
    r := g;
    for k := 0 to |g.arcs|
      invariant r.arcs == g.arcs && |r.nodes| == |g.nodes|
      invariant forall i :: 0 <= i < |g.nodes| ==>
                  r.nodes[i] == if exists a :: a in g.arcs[..k] && a.source == idx && a.target == i
                                then g.nodes[i].(dependencies := g.nodes[i].dependencies - {id}) else g.nodes[i]
    {
      var a := g.arcs[k];
      assert a in g.arcs;
      assert g.arcs[..k + 1] == g.arcs[..k] + [a];
      if a.source == idx {
        var target := r.nodes[a.target];
        r := r.(nodes := r.nodes[a.target := target.(dependencies := target.dependencies - {id})]);
      }
    }
    assert g.arcs[..|g.arcs|] == g.arcs;
  }

  lemma CleanedLookup(g: DiGraph, cleaned: DiGraph, indexMap: map<NodeId, nat>, idx: nat, id: NodeId)
    requires Rep(g, indexMap) && id in indexMap && indexMap[id] == idx
    requires !HasCycle(Weights(g.arcs))
    requires cleaned.arcs == g.arcs && |cleaned.nodes| == |g.nodes|
    requires forall i :: 0 <= i < |g.nodes| ==>
               cleaned.nodes[i] == if exists a :: a in g.arcs && a.source == idx && a.target == i
                                   then g.nodes[i].(dependencies := g.nodes[i].dependencies - {id}) else g.nodes[i]
    ensures Rep(cleaned, indexMap) && cleaned.nodes[idx] == g.nodes[idx]
    ensures forall v :: v in indexMap && v != id ==>
              Lookup(cleaned, indexMap)[v] == WithoutNode(Lookup(g, indexMap), Weights(g.arcs), id)[v]
  {
    hide HasCycle, UniqueIds, Sources;
    CleanedRep(g, cleaned, indexMap);
    forall v | v in indexMap
      ensures id in Sources(Weights(g.arcs), v) <==>
              exists a :: a in g.arcs && a.source == idx && a.target == indexMap[v]
    {
      SourceIsArc(g, indexMap, id, v);
    }
    NoSelfSource(Weights(g.arcs), id);
  }

  lemma CleanedRep(g: DiGraph, cleaned: DiGraph, indexMap: map<NodeId, nat>)
    requires Rep(g, indexMap) && cleaned.arcs == g.arcs && |cleaned.nodes| == |g.nodes|
    requires forall i :: 0 <= i < |g.nodes| ==> cleaned.nodes[i].id == g.nodes[i].id
    ensures Rep(cleaned, indexMap)
  {
  }

  lemma SourceIsArc(g: DiGraph, indexMap: map<NodeId, nat>, id: NodeId, v: NodeId)
    requires Rep(g, indexMap) && id in indexMap && v in indexMap
    ensures id in Sources(Weights(g.arcs), v) <==>
            exists a :: a in g.arcs && a.source == indexMap[id] && a.target == indexMap[v]
  {
    if id in Sources(Weights(g.arcs), v) {
      var e :| e in Weights(g.arcs) && e.target == v && e.source == id;
      var a := ArcOf(g, indexMap, e);
    }
    if a :| a in g.arcs && a.source == indexMap[id] && a.target == indexMap[v] {
      WeightOf(g, a);
    }
  }

  lemma NoSelfSource(edges: seq<Edge>, id: NodeId)
    requires !HasCycle(edges)
    ensures id !in Sources(edges, id)
  {
    if id in Sources(edges, id) {
      SelfLinkIsCycle(edges, id);
    }
  }

  /** The index table after a swap-removal: the removed identifier is gone and the
      node that took its place is found there. */
  lemma SwappedIndex(nodes: seq<Node>, indexMap: map<NodeId, nat>, idx: nat, index: map<NodeId, nat>)
    requires UniqueIds(nodes) && Indexed(nodes, indexMap) && idx < |nodes|
    requires index == if idx < |nodes| - 1 then (indexMap - {nodes[idx].id})[nodes[|nodes| - 1].id := idx]
                      else indexMap - {nodes[idx].id}
    ensures UniqueIds(SwapRemove(nodes, idx)) && Indexed(SwapRemove(nodes, idx), index)
    ensures index.Keys == indexMap.Keys - {nodes[idx].id}
    ensures forall id :: id in index ==> SwapRemove(nodes, idx)[index[id]] == nodes[indexMap[id]]
  {
    hide UniqueIds;
    var last, r := nodes[|nodes| - 1], SwapRemove(nodes, idx);
    SwapKeepsUnique(nodes, idx);
    assert indexMap[last.id] == |nodes| - 1 && indexMap[nodes[idx].id] == idx;
    forall i | 0 <= i < |r| ensures r[i].id in index && index[r[i].id] == i {
      assert r[i] == if i == idx then last else nodes[i];
      assert indexMap[nodes[i].id] == i;
    }
  }

  lemma SwapKeepsUnique(nodes: seq<Node>, idx: nat)
    requires UniqueIds(nodes) && idx < |nodes|
    ensures UniqueIds(SwapRemove(nodes, idx))
  {
  }

  lemma RemovalKeepsAcyclicity(edges: seq<Edge>, id: NodeId, fewer: seq<Edge>)
    requires !HasCycle(edges) && EdgesWithout(edges, id, fewer)
    ensures !HasCycle(fewer)
  {
    forall e | e in fewer ensures e in edges {
      assert e in multiset(fewer) && multiset(edges)[e] == multiset(fewer)[e];
    }
    FewerEdgesStayAcyclic(edges, fewer);
  }

  lemma RemovalKeepsDependencies(m: map<NodeId, Node>, edges: seq<Edge>, id: NodeId, fewer: seq<Edge>)
    requires DependenciesCover(m, edges) && EdgesWithout(edges, id, fewer)
    ensures DependenciesCover(WithoutNode(m, edges, id), fewer)
    ensures DependenciesExact(m, edges) ==> DependenciesExact(WithoutNode(m, edges, id), fewer)
  {
    forall v | v != id ensures Sources(fewer, v) == Sources(edges, v) - {id} {
      forall e: Edge ensures e in fewer <==> e in edges && e.source != id && e.target != id {
        assert e in fewer <==> multiset(fewer)[e] > 0;
        assert e in edges <==> multiset(edges)[e] > 0;
      }
    }
  }

  /** What lookup finds after the swap-removal of `id` from nodes already cleaned of it. */
  lemma RemovedLookup(
      g: DiGraph, indexMap: map<NodeId, nat>, cleaned: DiGraph, id: NodeId, h: DiGraph,
      index: map<NodeId, nat>)
    requires Indexed(g.nodes, indexMap) && id in indexMap
    requires UniqueIds(cleaned.nodes) && Indexed(cleaned.nodes, indexMap)
    requires forall v :: v in indexMap && v != id ==>
               Lookup(cleaned, indexMap)[v] == WithoutNode(Lookup(g, indexMap), Weights(g.arcs), id)[v]
    requires h.nodes == SwapRemove(cleaned.nodes, indexMap[id])
    requires index == if indexMap[id] < |h.nodes| then (indexMap - {id})[h.nodes[indexMap[id]].id := indexMap[id]]
                      else indexMap - {id}
    ensures UniqueIds(h.nodes) && Indexed(h.nodes, index)
    ensures Lookup(h, index) == WithoutNode(Lookup(g, indexMap), Weights(g.arcs), id)
  {
    hide UniqueIds, SwapRemove, Sources;
    CleanedId(cleaned.nodes, indexMap, id);
    SwappedAt(cleaned.nodes, indexMap[id]);
    SwappedIndex(cleaned.nodes, indexMap, indexMap[id], index);
    var m := WithoutNode(Lookup(g, indexMap), Weights(g.arcs), id);
    hide Indexed;
    forall v | v in index ensures Lookup(h, index)[v] == m[v] {
      assert Lookup(h, index)[v] == cleaned.nodes[indexMap[v]] == Lookup(cleaned, indexMap)[v];
    }
  }

  lemma SwappedAt(nodes: seq<Node>, idx: nat)
    requires idx < |nodes|
    ensures idx < |SwapRemove(nodes, idx)| <==> idx < |nodes| - 1
    ensures idx < |nodes| - 1 ==> SwapRemove(nodes, idx)[idx] == nodes[|nodes| - 1]
  {
  }

  lemma CleanedId(nodes: seq<Node>, indexMap: map<NodeId, nat>, id: NodeId)
    requires Indexed(nodes, indexMap) && id in indexMap
    ensures indexMap[id] < |nodes| && nodes[indexMap[id]].id == id
  {
  }

  lemma RemovedDependencies(g: DiGraph, indexMap: map<NodeId, nat>, id: NodeId, h: DiGraph, index: map<NodeId, nat>)
    requires Sound(g, indexMap) && Indexed(h.nodes, index)
    requires EdgesWithout(Weights(g.arcs), id, Weights(h.arcs))
    requires Lookup(h, index) == WithoutNode(Lookup(g, indexMap), Weights(g.arcs), id)
    ensures !HasCycle(Weights(h.arcs)) && DependenciesCover(Lookup(h, index), Weights(h.arcs))
    ensures DependenciesExact(Lookup(g, indexMap), Weights(g.arcs)) ==>
            DependenciesExact(Lookup(h, index), Weights(h.arcs))
  {
    RemovalKeepsAcyclicity(Weights(g.arcs), id, Weights(h.arcs));
    RemovalKeepsDependencies(Lookup(g, indexMap), Weights(g.arcs), id, Weights(h.arcs));
  }

  /** Removes node `id` from a sound graph: its dependents forget it, then it and its edges go. */
  method RemoveFrom(g: DiGraph, indexMap: map<NodeId, nat>, id: NodeId) returns (h: DiGraph, index: map<NodeId, nat>)
    requires Sound(g, indexMap) && id in indexMap
    ensures Sound(h, index)
    ensures indexMap[id] < |g.nodes| && Ids(h.nodes) == SwapRemove(Ids(g.nodes), indexMap[id])
    ensures EdgesWithout(Weights(g.arcs), id, Weights(h.arcs))
    ensures Lookup(h, index) == WithoutNode(Lookup(g, indexMap), Weights(g.arcs), id)
    ensures DependenciesExact(Lookup(g, indexMap), Weights(g.arcs)) ==>
            DependenciesExact(Lookup(h, index), Weights(h.arcs))
  {
    hide HasCycle, DependenciesCover, DependenciesExact, EdgesWithout, WithoutNode, SwapRemove, Indexed, UniqueIds,
      Anchored;
    SoundParts(g, indexMap);
    var idx := indexMap[id];
    var cleaned := DropDependency(g, idx, id);
    CleanedLookup(g, cleaned, indexMap, idx, id);
    h := RemoveNode(cleaned, idx);
    index := indexMap - {id};
    if idx < |h.nodes| {
      index := index[h.nodes[idx].id := idx];
    }
    RemovedLookup(g, indexMap, cleaned, id, h, index);
    RemovedDependencies(g, indexMap, id, h, index);
    SwappedIds(g.nodes, cleaned.nodes, idx);
  }

  lemma SwappedIds(nodes: seq<Node>, cleaned: seq<Node>, idx: nat)
    requires idx < |nodes| && |cleaned| == |nodes|
    requires forall i :: 0 <= i < |nodes| ==> cleaned[i].id == nodes[i].id
    ensures Ids(SwapRemove(cleaned, idx)) == SwapRemove(Ids(nodes), idx)
  {
  }

  lemma DependenciesIgnoreStates(m: map<NodeId, Node>, r: map<NodeId, Node>, edges: seq<Edge>)
    requires m.Keys == r.Keys && forall v :: v in m ==> r[v].dependencies == m[v].dependencies
    ensures DependenciesCover(m, edges) ==> DependenciesCover(r, edges)
    ensures DependenciesExact(m, edges) ==> DependenciesExact(r, edges)
  {
  }

  /** The nodes with the recorded duration of one of them replaced. */
  function Timed(m: map<NodeId, Node>, id: NodeId, duration: Option<nat>): (r: map<NodeId, Node>)
    ensures r.Keys == m.Keys
  {
    if id in m then m[id := m[id].(actualDuration := duration)] else m
  }

  lemma RecordedEnd(m: map<NodeId, Node>, edges: seq<Edge>, id: NodeId, state: NodeState, duration: Option<nat>)
    requires id in m && DependenciesCover(m, edges)
    ensures var r := m[id := m[id].(state := state, actualDuration := duration)];
            && DependenciesCover(r, edges)
            && StatesOf(r) == StatesOf(m)[id := state]
            && forall s: States :: s.Keys == m.Keys ==> WithStates(r, s) == WithStates(Timed(m, id, duration), s)
  {
    DependenciesIgnoreStates(m, m[id := m[id].(state := state, actualDuration := duration)], edges);
  }

  /** A node's state replaced in a sound graph. */
  lemma StateReplaced(g: DiGraph, indexMap: map<NodeId, nat>, id: NodeId, state: NodeState)
    requires Sound(g, indexMap) && id in indexMap
    ensures var m := Lookup(g, indexMap);
            var h := g.(nodes := g.nodes[indexMap[id] := g.nodes[indexMap[id]].(state := state)]);
            && Sound(h, indexMap) && Ids(h.nodes) == Ids(g.nodes)
            && Lookup(h, indexMap) == m[id := m[id].(state := state)]
            && StatesOf(Lookup(h, indexMap)) == StatesOf(m)[id := state]
  {
    hide HasCycle, Anchored, UniqueIds;
    var node := g.nodes[indexMap[id]].(state := state);
    ReplacedNode(g, indexMap, node);
    DependenciesIgnoreStates(Lookup(g, indexMap), Lookup(g, indexMap)[id := node], Weights(g.arcs));
  }

  /** A sound graph with one more arc that closes no cycle, recorded as a dependency. */
  lemma ArcLinked(g: DiGraph, indexMap: map<NodeId, nat>, edge: Edge, h: DiGraph)
    requires Sound(g, indexMap) && edge.source in indexMap && edge.target in indexMap
    requires !HasCycle(Weights(g.arcs) + [edge])
    requires var target := indexMap[edge.target];
             var node := g.nodes[target];
             h == DiGraph(g.nodes[target := node.(dependencies := node.dependencies + {edge.source})],
                          g.arcs + [Arc(indexMap[edge.source], target, edge)])
    ensures Sound(h, indexMap) && Ids(h.nodes) == Ids(g.nodes) && Weights(h.arcs) == Weights(g.arcs) + [edge]
    ensures Lookup(h, indexMap) == WithDependency(Lookup(g, indexMap), edge)
    ensures DependenciesExact(Lookup(g, indexMap), Weights(g.arcs)) ==>
            DependenciesExact(Lookup(h, indexMap), Weights(h.arcs))
  {
    hide HasCycle, Anchored, UniqueIds, DependenciesCover, DependenciesExact;
    AddedArc(g, indexMap, edge);
    var mid := g.(arcs := g.arcs + [Arc(indexMap[edge.source], indexMap[edge.target], edge)]);
    var node := g.nodes[indexMap[edge.target]];
    ReplacedNode(mid, indexMap, node.(dependencies := node.dependencies + {edge.source}));
    DependencyAdded(Lookup(g, indexMap), Weights(g.arcs), edge);
  }

  /** Records how node `id` ended and skips what became impossible. */
  method FinishNode(g: DiGraph, indexMap: map<NodeId, nat>, id: NodeId, state: NodeState, duration: Option<nat>)
      returns (h: DiGraph)
    requires Sound(g, indexMap) && id in indexMap
    ensures Sound(h, indexMap) && h.arcs == g.arcs && Ids(h.nodes) == Ids(g.nodes)
    ensures Covers(Weights(g.arcs), StatesOf(Lookup(g, indexMap)))
    ensures StatesOf(Lookup(h, indexMap)) == SkipAll(Weights(g.arcs), StatesOf(Lookup(g, indexMap))[id := state])
    ensures Lookup(h, indexMap) == WithStates(Timed(Lookup(g, indexMap), id, duration), StatesOf(Lookup(h, indexMap)))
  {
    RepCovers(g, indexMap);
    var node := g.nodes[indexMap[id]].(state := state, actualDuration := duration);
    ReplacedNode(g, indexMap, node);
    RecordedEnd(Lookup(g, indexMap), Weights(g.arcs), id, state, duration);
    h := g.(nodes := g.nodes[indexMap[id] := node]);
    h := PropagateSkips(h, indexMap);
  }

  /** Nodes, edges and order are those of a sound graph. */
  ghost predicate Views(
      g: DiGraph, indexMap: map<NodeId, nat>, nodes: map<NodeId, Node>, edges: seq<Edge>, order: seq<NodeId>)
  {
    && Sound(g, indexMap)
    && nodes == Lookup(g, indexMap) && edges == Weights(g.arcs) && order == Ids(g.nodes)
  }

  lemma SoundIsViewed(g: DiGraph, indexMap: map<NodeId, nat>)
    requires Sound(g, indexMap)
    ensures Indexed(g.nodes, indexMap)
    ensures Views(g, indexMap, Lookup(g, indexMap), Weights(g.arcs), Ids(g.nodes))
    ensures Covers(Weights(g.arcs), StatesOf(Lookup(g, indexMap)))
  {
    hide Sound, Covers, Rep, Indexed, Anchored, UniqueIds, Lookup;
    SoundParts(g, indexMap);
  }

  lemma ViewedIsSound(
      g: DiGraph, indexMap: map<NodeId, nat>, nodes: map<NodeId, Node>, edges: seq<Edge>, order: seq<NodeId>)
    requires Views(g, indexMap, nodes, edges, order)
    ensures Sound(g, indexMap) && nodes == Lookup(g, indexMap) && edges == Weights(g.arcs) && order == Ids(g.nodes)
    ensures forall id :: id in nodes <==> id in indexMap
  {
    hide Sound;
  }

  /** With both ends known, an edge may be added, to be dropped again if it closes a cycle. */
  lemma MayBeLinked(
      g: DiGraph, indexMap: map<NodeId, nat>, nodes: map<NodeId, Node>, edges: seq<Edge>, order: seq<NodeId>,
      edge: Edge)
    requires Views(g, indexMap, nodes, edges, order)
    ensures forall id :: id in nodes <==> id in indexMap
    ensures forall id :: id in indexMap ==> indexMap[id] < |g.nodes|
    ensures edge.source in indexMap && edge.target in indexMap ==>
              var h := g.(arcs := g.arcs + [Arc(indexMap[edge.source], indexMap[edge.target], edge)]);
              Rep(h, indexMap) && Weights(h.arcs) == edges + [edge]
  {
    hide Sound, Rep, Weights, Lookup;
    SoundParts(g, indexMap);
    if edge.source in indexMap && edge.target in indexMap {
      AddedArc(g, indexMap, edge);
    }
  }

  lemma LinkedIsViewed(
      g: DiGraph, indexMap: map<NodeId, nat>, nodes: map<NodeId, Node>, edges: seq<Edge>, order: seq<NodeId>,
      edge: Edge, h: DiGraph)
    requires Views(g, indexMap, nodes, edges, order) && edge.source in indexMap && edge.target in indexMap
    requires edge.target in nodes && indexMap[edge.target] < |g.nodes| && !HasCycle(edges + [edge])
    requires var target := indexMap[edge.target];
             var node := g.nodes[target];
             h == DiGraph(g.nodes[target := node.(dependencies := node.dependencies + {edge.source})],
                          g.arcs + [Arc(indexMap[edge.source], target, edge)])
    ensures Views(h, indexMap, WithDependency(nodes, edge), edges + [edge], order)
    ensures Covers(edges + [edge], StatesOf(WithDependency(nodes, edge)))
    ensures DependenciesExact(nodes, edges) ==> DependenciesExact(WithDependency(nodes, edge), edges + [edge])
  {
    hide Sound, Rep, Weights, Lookup, HasCycle, WithDependency, DependenciesExact, Covers, StatesOf, Ids;
    ArcLinked(g, indexMap, edge, h);
    SoundParts(h, indexMap);
  }

  // ----- Readiness and skips by the fields of nodes and edges -----

  /** The node is pending, and every edge into it lets it go on. */
  ghost predicate MayStart(m: map<NodeId, Node>, edges: seq<Edge>, v: NodeId)
    requires v in m
  {
    m[v].state == Pending &&
    forall e :: e in edges && e.target == v ==> e.source in m && Meets(e, m[e.source].state)
  }

  lemma MayStartIff(m: map<NodeId, Node>, edges: seq<Edge>)
    requires Covers(edges, StatesOf(m))
    ensures forall v :: v in m ==> (MayStart(m, edges, v) <==> IsReady(edges, StatesOf(m), v))
  {
    hide IsReady, Meets;
    forall v | v in m ensures MayStart(m, edges, v) <==> IsReady(edges, StatesOf(m), v) {
      ReadyIff(edges, StatesOf(m), v);
    }
  }

  /** Some edge into the node does not let it go on, though its source has ended. */
  ghost predicate IsRefused(m: map<NodeId, Node>, edges: seq<Edge>, v: NodeId) {
    exists e :: e in edges && e.target == v && e.source in m
                && HasEnded(m[e.source].state) && !Meets(e, m[e.source].state)
  }

  /** Node `id` has ended in the given state, with that duration; of the others only pending
      ones have changed, and have been skipped: exactly those with a refusing edge. */
  ghost predicate EndsNode(
      m: map<NodeId, Node>, edges: seq<Edge>, id: NodeId, state: NodeState, duration: Option<nat>,
      r: map<NodeId, Node>)
  {
    && id in m && r.Keys == m.Keys
    && r[id] == m[id].(state := r[id].state, actualDuration := duration)
    && (forall v :: v in m && v != id ==> r[v] == m[v].(state := r[v].state))
    && forall v :: v in m ==>
         var x := if v == id then state else m[v].state;
         r[v].state == if x == Pending && IsRefused(r, edges, v) then Skipped else x
  }

  lemma RefusedIff(m: map<NodeId, Node>, edges: seq<Edge>, v: NodeId)
    requires Covers(edges, StatesOf(m))
    ensures var s := StatesOf(m);
            IsRefused(m, edges, v) <==>
            exists e :: e in edges && e.target == v && HasEnded(s[e.source]) && !Meets(e, s[e.source])
  {
    hide Meets, HasEnded;
  }

  lemma EndedNode(m: map<NodeId, Node>, edges: seq<Edge>, t: States, r: map<NodeId, Node>, v: NodeId)
    requires Covers(edges, t) && t.Keys == m.Keys && StatesOf(r) == SkipAll(edges, t) && v in t
    ensures v in r && r[v].state == if t[v] == Pending && IsRefused(r, edges, v) then Skipped else t[v]
  {
    hide Meets, HasEnded, SkipAll, IsRefused;
    Outcomes.SkipAllKeepsFinished(edges, t);
    assert v in StatesOf(r) && r[v].state == StatesOf(r)[v];
    if t[v] == Pending {
      SkippedIff(edges, t, v);
      RefusedIff(r, edges, v);
    }
  }

  lemma TimedAttributes(m: map<NodeId, Node>, id: NodeId, duration: Option<nat>, s: States)
    requires id in m && s.Keys == m.Keys
    ensures var r := WithStates(Timed(m, id, duration), s);
            && r[id] == m[id].(state := r[id].state, actualDuration := duration)
            && forall v :: v in m && v != id ==> r[v] == m[v].(state := r[v].state)
  {
  }

  lemma EndedByFields(
      m: map<NodeId, Node>, edges: seq<Edge>, id: NodeId, state: NodeState, duration: Option<nat>)
    requires id in m && Covers(edges, StatesOf(m))
    ensures var s := SkipAll(edges, StatesOf(m)[id := state]);
            EndsNode(m, edges, id, state, duration, WithStates(Timed(m, id, duration), s))
  {
    hide SkipAll, IsRefused, WithStates, Timed;
    var t := StatesOf(m)[id := state];
    var r := WithStates(Timed(m, id, duration), SkipAll(edges, t));
    TimedAttributes(m, id, duration, SkipAll(edges, t));
    forall v | v in m ensures r[v].state == if t[v] == Pending && IsRefused(r, edges, v) then Skipped else t[v] {
      EndedNode(m, edges, t, r, v);
    }
  }

  /** The graph, with ghost fields for what callers reason about: the nodes by
      identifier, the edges, and the identifiers in index order. */
  class ExecutionGraph {
    var graph: DiGraph
    var indexMap: map<NodeId, nat>
    var name: string
    ghost var nodes: map<NodeId, Node>
    ghost var edges: seq<Edge>
    ghost var order: seq<NodeId>

    ghost predicate Valid()
      reads this
    {
      Views(graph, indexMap, nodes, edges, order) && Covers(edges, NodeStates())
    }

    ghost function NodeStates(): (s: States)
      reads this
      ensures s.Keys == nodes.Keys
    {
      StatesOf(nodes)
    }

    function NodeCount(): nat
      reads this
    {
      |graph.nodes|
    }

    constructor (name: string)
      ensures Valid() && this.name == name
      ensures nodes == map[] && edges == [] && order == []
    {
      this.graph := DiGraph([], []);
      this.indexMap := map[];
      this.name := name;
      this.nodes, this.edges, this.order := map[], [], [];
      new;
      EmptyHasNoCycle();
    }

    /** A copy that shares nothing with the original. */
    constructor Clone(original: ExecutionGraph)
      requires original.Valid()
      ensures Valid() && graph == original.graph && indexMap == original.indexMap && name == original.name
      ensures nodes == original.nodes && edges == original.edges && order == original.order
    {
      graph, indexMap, name := original.graph, original.indexMap, original.name;
      nodes, edges, order := original.nodes, original.edges, original.order;
    }

    /** Registers a node; a second registration of an identifier changes nothing. */
    method AddNode(node: Node) returns (id: NodeId)
      requires Valid()
      modifies this
      ensures Valid() && id == node.id && name == old(name) && edges == old(edges)
      ensures nodes == if node.id in old(nodes) then old(nodes) else old(nodes)[node.id := node]
      ensures order == old(order) + if node.id in old(nodes) then [] else [node.id]
      ensures old(DependenciesExact(nodes, edges)) && node.dependencies == {} ==> DependenciesExact(nodes, edges)
    {
      hide Sound, Rep, Indexed, Anchored, UniqueIds, Covers, DependenciesExact, StatesOf;
      SoundParts(graph, indexMap);
      id := node.id;
      if id in indexMap {
        return;
      }
      AddedNode(graph, indexMap, node);
      assert Ids(graph.nodes + [node]) == Ids(graph.nodes) + [id];
      indexMap, graph := indexMap[id := |graph.nodes|], graph.(nodes := graph.nodes + [node]);
      nodes, order := nodes[id := node], order + [id];
      SoundParts(graph, indexMap);
    }

    /** Adds an edge unless an endpoint is unknown or the edge would close a cycle. */
    method AddEdge(edge: Edge) returns (r: Result<(), GraphError>)
      requires Valid()
      modifies this
      ensures Valid() && name == old(name) && indexMap == old(indexMap) && order == old(order)
      ensures r == if edge.source !in old(nodes) then Err(NodeNotFound(edge.source))
                   else if edge.target !in old(nodes) then Err(NodeNotFound(edge.target))
                   else if HasCycle(old(edges) + [edge]) then Err(CycleDetected)
                   else Ok(())
      ensures r.Err? ==> graph == old(graph) && nodes == old(nodes) && edges == old(edges)
      ensures r.Ok? ==> edges == old(edges) + [edge] && nodes == WithDependency(old(nodes), edge)
      ensures old(DependenciesExact(nodes, edges)) ==> DependenciesExact(nodes, edges)
    {
      hide Views, Sound, Rep, Indexed, HasCycle, Covers, DependenciesExact, StatesOf, WithDependency, Weights;
      MayBeLinked(graph, indexMap, nodes, edges, order, edge);
      if edge.source !in indexMap {
        return Err(NodeNotFound(edge.source));
      }
      if edge.target !in indexMap {
        return Err(NodeNotFound(edge.target));
      }
      var target := indexMap[edge.target];
      ghost var before := graph;
      graph := graph.(arcs := graph.arcs + [Arc(indexMap[edge.source], target, edge)]);
      var cyclic := IsCyclicDirected(graph, indexMap);
      if cyclic {
        graph := graph.(arcs := graph.arcs[..|graph.arcs| - 1]);
        assert graph.arcs == before.arcs;
        return Err(CycleDetected);
      }
      var node := graph.nodes[target];
      node := node.(dependencies := node.dependencies + {edge.source});
      graph := graph.(nodes := graph.nodes[target := node]);
      LinkedIsViewed(before, indexMap, nodes, edges, order, edge, graph);
      nodes, edges := WithDependency(nodes, edge), edges + [edge];
      r := Ok(());
    }

    /** Removes a node with all its edges, and its identifier from the dependency
        sets of the nodes it had edges into. */
    method RemoveNode(id: NodeId) returns (r: Result<Node, GraphError>)
      requires Valid()
      modifies this
      ensures Valid() && name == old(name)
      ensures r == if id in old(nodes) then Ok(old(nodes)[id]) else Err(NodeNotFound(id))
      ensures r.Err? ==> graph == old(graph) && indexMap == old(indexMap) && nodes == old(nodes) && edges == old(edges)
      ensures r.Ok? ==> EdgesWithout(old(edges), id, edges) && nodes == WithoutNode(old(nodes), old(edges), id)
      ensures r.Ok? ==> old(indexMap)[id] < |old(order)| && order == SwapRemove(old(order), old(indexMap)[id])
      ensures old(DependenciesExact(nodes, edges)) ==> DependenciesExact(nodes, edges)
    {
      hide Sound, Rep, Indexed, Anchored, UniqueIds, Covers, DependenciesExact, StatesOf, EdgesWithout;
      SoundParts(graph, indexMap);
      if id !in indexMap {
        return Err(NodeNotFound(id));
      }
      var removed := graph.nodes[indexMap[id]];
      graph, indexMap := RemoveFrom(graph, indexMap, id);
      SoundParts(graph, indexMap);
      nodes, edges, order := WithoutNode(nodes, edges, id), Weights(graph.arcs), Ids(graph.nodes);
      r := Ok(removed);
    }

    function GetNode(id: NodeId): (r: Option<Node>)
      requires Valid()
      reads this
      ensures r == if id in nodes then Some(nodes[id]) else None
    {
      if id in indexMap then Some(graph.nodes[indexMap[id]]) else None
    }

    /** The identifiers of all nodes, in index order. */
    function NodeIds(): (ids: seq<NodeId>)
      requires Valid()
      reads this
      ensures ids == order && forall id :: id in ids <==> id in nodes
    {
      assert forall id :: id in nodes ==> Ids(graph.nodes)[indexMap[id]] == id;
      Ids(graph.nodes)
    }

    /** The pending nodes all of whose incoming edges are satisfied, in index order. */
    function ReadyNodes(): (ready: seq<NodeId>)
      requires Valid()
      reads this
      ensures Distinct(ready) && ready == ReadyIds(graph, |graph.nodes|)
      ensures forall id :: id in ready <==> id in nodes && IsReady(edges, NodeStates(), id)
      ensures forall id :: id in ready <==> id in nodes && MayStart(nodes, edges, id)
    {
      MayStartIff(nodes, edges);
      ReadyIdsDistinct(graph, |graph.nodes|);
      ReadyIdsAreReady(graph, indexMap);
      ReadyIds(graph, |graph.nodes|)
    }

    /** The states once node `id` has ended in a state and skips were propagated. */
    ghost function StatesAfter(id: NodeId, newState: NodeState): States
      requires Valid() && id in nodes
      reads this
    {
      SkipAll(edges, NodeStates()[id := newState])
    }

    /** Records how a node ended, skips what became impossible, and lists what is ready. */
    method MarkComplete(id: NodeId, newState: NodeState, actualDuration: Option<nat>)
      returns (r: Result<seq<NodeId>, GraphError>)
      requires Valid()
      modifies this
      ensures Valid() && indexMap == old(indexMap) && name == old(name) && edges == old(edges) && order == old(order)
      ensures r == if id in old(nodes) then Ok(ReadyNodes()) else Err(NodeNotFound(id))
      ensures r.Err? ==> graph == old(graph) && nodes == old(nodes)
      ensures r.Ok? ==> NodeStates() == old(StatesAfter(id, newState))
      ensures r.Ok? ==> nodes == WithStates(Timed(old(nodes), id, actualDuration), NodeStates())
      ensures r.Ok? ==> EndsNode(old(nodes), edges, id, newState, actualDuration, nodes)
    {
      hide Sound, Covers, SkipAll, IsReady, ReadyIds, StatesOf, WithStates, Timed, Lookup, Ids, Weights, Distinct,
           EndsNode, MayStart;
      if GetNode(id).None? {
        return Err(NodeNotFound(id));
      }
      EndedByFields(nodes, edges, id, newState, actualDuration);
      RecordEnd(id, newState, actualDuration);
      r := Ok(ReadyNodes());
    }

    method RecordEnd(id: NodeId, newState: NodeState, actualDuration: Option<nat>)
      requires Valid() && id in nodes
      modifies this
      ensures Valid() && indexMap == old(indexMap) && name == old(name) && edges == old(edges) && order == old(order)
      ensures NodeStates() == old(StatesAfter(id, newState))
      ensures nodes == WithStates(Timed(old(nodes), id, actualDuration), NodeStates())
    {
      hide Views, Sound, Rep, Indexed, Anchored, UniqueIds, Covers, SkipAll, StatesOf, WithStates, Timed, Lookup, Ids;
      hide Weights;
      ViewedIsSound(graph, indexMap, nodes, edges, order);
      var finished := FinishNode(graph, indexMap, id, newState, actualDuration);
      SoundIsViewed(finished, indexMap);
      graph, nodes := finished, Lookup(finished, indexMap);
    }

    /** Sets the state of one node, with no propagation. */
    method SetState(id: NodeId, state: NodeState)
      requires Valid()
      modifies this
      ensures Valid() && indexMap == old(indexMap) && name == old(name) && edges == old(edges) && order == old(order)
      ensures nodes == if id in old(nodes) then old(nodes)[id := old(nodes)[id].(state := state)] else old(nodes)
      ensures NodeStates() == if id in old(nodes) then old(NodeStates())[id := state] else old(NodeStates())
    {
      hide Sound, Rep, Indexed, Anchored, UniqueIds, Covers, StatesOf;
      SoundParts(graph, indexMap);
      if id in indexMap {
        var node := graph.nodes[indexMap[id]].(state := state);
        StateReplaced(graph, indexMap, id, state);
        graph := graph.(nodes := graph.nodes[indexMap[id] := node]);
        nodes := nodes[id := node];
        SoundParts(graph, indexMap);
      }
    }

    /** Repeatedly skips every impossible node until there is none. */
    method SkipImpossibleNodes()
      requires Valid()
      modifies this
      ensures Valid() && indexMap == old(indexMap) && name == old(name) && edges == old(edges) && order == old(order)
      ensures NodeStates() == SkipAll(edges, old(NodeStates()))
      ensures nodes == WithStates(old(nodes), NodeStates())
    {
      hide Sound, Rep, Indexed, Anchored, UniqueIds, Covers, SkipAll, StatesOf, WithStates;
      SoundParts(graph, indexMap);
      graph := PropagateSkips(graph, indexMap);
      SoundParts(graph, indexMap);
      nodes := Lookup(graph, indexMap);
    }
  }
}
