/** The wire form of an execution graph: its name, node list and edge list. */
module GraphWires {
  import opened Prelude
  import opened Nodes
  import opened Edges
  import opened Topology
  import opened DiGraphs
  import opened ExecutionGraphs

  datatype GraphWire = GraphWire(name: string, nodes: seq<Node>, edges: seq<Edge>)

  function WireOf(name: string, g: DiGraph): GraphWire {
    GraphWire(name, g.nodes, Weights(g.arcs))
  }

  /** The wire forms that describe a graph: no repeated node, no dangling edge, no cycle. */
  ghost predicate Loadable(wire: GraphWire) {
    && UniqueIds(wire.nodes)
    && (forall e :: e in wire.edges ==> e.source in Ids(wire.nodes) && e.target in Ids(wire.nodes))
    && !HasCycle(wire.edges)
  }

  /** The nodes with the sources of their incoming edges added to their dependencies. */
  function WithSources(m: map<NodeId, Node>, edges: seq<Edge>): (r: map<NodeId, Node>)
    ensures r.Keys == m.Keys
  {
    map v | v in m :: m[v].(dependencies := m[v].dependencies + Sources(edges, v))
  }

  /** The nodes of a list by identifier. */
  function Tabulate(nodes: seq<Node>): (m: map<NodeId, Node>)
    ensures forall id :: id in m <==> id in Ids(nodes)
  {
    map id | id in Ids(nodes) :: nodes[IndexOf(Ids(nodes), id)]
  }

  lemma TabulatedNodes(nodes: seq<Node>)
    requires UniqueIds(nodes)
    ensures forall i :: 0 <= i < |nodes| ==> nodes[i].id in Tabulate(nodes) && Tabulate(nodes)[nodes[i].id] == nodes[i]
  {
    forall i | 0 <= i < |nodes| ensures nodes[i].id in Ids(nodes) && Tabulate(nodes)[nodes[i].id] == nodes[i] {
      assert Ids(nodes)[i] == nodes[i].id;
      var j := IndexOf(Ids(nodes), nodes[i].id);
    }
  }

  lemma TabulateOneMore(nodes: seq<Node>, i: nat)
    requires i < |nodes| && UniqueIds(nodes[..i])
    ensures nodes[i].id in Ids(nodes[..i]) ==> !UniqueIds(nodes)
    ensures nodes[i].id !in Ids(nodes[..i]) ==>
              && UniqueIds(nodes[..i + 1])
              && Ids(nodes[..i + 1]) == Ids(nodes[..i]) + [nodes[i].id]
              && Tabulate(nodes[..i + 1]) == Tabulate(nodes[..i])[nodes[i].id := nodes[i]]
  {
    if nodes[i].id in Ids(nodes[..i]) {
      var j := IndexOf(Ids(nodes[..i]), nodes[i].id);
      assert nodes[j].id == nodes[i].id;
    } else {
      forall j | 0 <= j < i ensures nodes[j].id != nodes[i].id {
        assert Ids(nodes[..i])[j] == nodes[j].id;
      }
      forall j, k | 0 <= j < k < i + 1 ensures nodes[j].id != nodes[k].id {
        if k < i {
          assert nodes[..i][j].id != nodes[..i][k].id;
        }
      }
      assert UniqueIds(nodes[..i + 1]);
      TabulatedNodes(nodes[..i]);
      TabulatedNodes(nodes[..i + 1]);
      TabulatesAgree(nodes, i);
    }
  }

  lemma TabulatesAgree(nodes: seq<Node>, i: nat)
    requires i < |nodes| && UniqueIds(nodes[..i + 1]) && UniqueIds(nodes[..i])
    ensures Tabulate(nodes[..i + 1]) == Tabulate(nodes[..i])[nodes[i].id := nodes[i]]
  {
    TabulatedNodes(nodes[..i]);
    TabulatedNodes(nodes[..i + 1]);
    var m, r := Tabulate(nodes[..i])[nodes[i].id := nodes[i]], Tabulate(nodes[..i + 1]);
    forall id | id in r ensures id in m && m[id] == r[id] {
      var j := IndexOf(Ids(nodes[..i + 1]), id);
      if j < i {
        assert nodes[..i][j].id == id;
        assert nodes[..i + 1][j].id != nodes[..i + 1][i].id;
      }
    }
    forall id | id in m ensures id in r {
      if id != nodes[i].id {
        var j := IndexOf(Ids(nodes[..i]), id);
        assert nodes[..i + 1][j].id == id;
      } else {
        assert nodes[..i + 1][i].id == id;
      }
    }
  }

  /** Adds nodes one by one, stopping at the first repeated identifier. */
  method AddNodes(g: ExecutionGraph, nodes: seq<Node>) returns (duplicate: bool)
    requires g.Valid() && g.nodes == map[] && g.edges == [] && g.order == []
    modifies g
    ensures g.Valid() && g.name == old(g.name)
    ensures duplicate <==> !UniqueIds(nodes)
    ensures !duplicate ==> g.order == Ids(nodes) && g.edges == [] && g.nodes == Tabulate(nodes)
  {
    assert g.nodes == Tabulate([]);
    for i := 0 to |nodes|
      invariant g.Valid() && g.name == old(g.name) && g.edges == []
      invariant UniqueIds(nodes[..i]) && g.order == Ids(nodes[..i])
      invariant g.nodes == Tabulate(nodes[..i])
    {
      TabulateOneMore(nodes, i);
      if nodes[i].id in g.indexMap {
        return true;
      }
      var _ := g.AddNode(nodes[i]);
    }
    assert nodes[..|nodes|] == nodes;
    duplicate := false;
  }

  lemma NoEdgesNoSources(m: map<NodeId, Node>)
    ensures WithSources(m, []) == m
  {
    forall v | v in m ensures WithSources(m, [])[v] == m[v] {
      assert m[v].dependencies + Sources([], v) == m[v].dependencies;
    }
  }

  lemma PrefixCycle(edges: seq<Edge>, k: nat)
    requires k <= |edges| && HasCycle(edges[..k])
    ensures HasCycle(edges)
  {
    if !HasCycle(edges) {
      FewerEdgesStayAcyclic(edges, edges[..k]);
    }
  }

  method AddEdges(g: ExecutionGraph, edges: seq<Edge>) returns (r: Result<(), GraphError>)
    requires g.Valid() && g.edges == []
    modifies g
    ensures g.Valid() && g.name == old(g.name) && g.order == old(g.order)
    ensures r.Ok? <==>
            (forall e :: e in edges ==> e.source in old(g.nodes) && e.target in old(g.nodes)) && !HasCycle(edges)
    ensures r.Ok? ==> g.edges == edges && g.nodes == WithSources(old(g.nodes), edges)
  {
    ghost var m := g.nodes;
    NoEdgesNoSources(m);
    EmptyHasNoCycle();
    for k := 0 to |edges|
      invariant g.Valid() && g.name == old(g.name) && g.order == old(g.order)
      invariant g.edges == edges[..k] && g.nodes == WithSources(m, edges[..k])
      invariant forall e :: e in edges[..k] ==> e.source in m && e.target in m
    {
      OneMoreEdge(m, edges, k);
      var added := g.AddEdge(edges[k]);
      if added.Err? {
        return added;
      }
    }
    assert edges[..|edges|] == edges;
    r := Ok(());
  }

  lemma OneMoreEdge(m: map<NodeId, Node>, edges: seq<Edge>, k: nat)
    requires k < |edges|
    ensures edges[..k + 1] == edges[..k] + [edges[k]] && edges[k] in edges
    ensures edges[k].target in m ==>
              WithSources(m, edges[..k + 1]) == WithDependency(WithSources(m, edges[..k]), edges[k])
    ensures HasCycle(edges[..k] + [edges[k]]) ==> HasCycle(edges)
  {
    assert edges[..k + 1] == edges[..k] + [edges[k]];
    if edges[k].target in m {
      SourcesOneMore(m, edges[..k], edges[k]);
    }
    if HasCycle(edges[..k + 1]) {
      PrefixCycle(edges, k + 1);
    }
  }

  lemma SourcesOneMore(m: map<NodeId, Node>, edges: seq<Edge>, edge: Edge)
    requires edge.target in m
    ensures WithSources(m, edges + [edge]) == WithDependency(WithSources(m, edges), edge)
  {
    AddedSource(edges, edge);
    var l, r := WithSources(m, edges + [edge]), WithDependency(WithSources(m, edges), edge);
    forall v | v in m ensures l[v] == r[v] {
      assert l[v].dependencies == r[v].dependencies;
    }
  }

  /** Rebuilds a graph from its wire form; it succeeds exactly on loadable ones. */
  method FromWire(wire: GraphWire) returns (r: Result<ExecutionGraph, GraphError>)
    ensures r.Ok? <==> Loadable(wire)
    ensures r.Err? ==> r.error.Serialization?
    ensures r.Ok? ==> fresh(r.value) && r.value.Valid() && r.value.name == wire.name
    ensures r.Ok? ==> r.value.order == Ids(wire.nodes) && r.value.edges == wire.edges
    ensures r.Ok? ==> r.value.nodes == WithSources(Tabulate(wire.nodes), wire.edges)
  {
    hide Sound, Covers, HasCycle;
    var g := new ExecutionGraph(wire.name);
    var duplicate := AddNodes(g, wire.nodes);
    if duplicate {
      return Err(Serialization("duplicate node ID"));
    }
    var added := AddEdges(g, wire.edges);
    if added.Err? {
      return Err(Serialization("invalid edge"));
    }
    r := Ok(g);
  }

  /** The identifier-level view determines the graph, down to its indices. */
  lemma ViewDetermines(g: DiGraph, index: map<NodeId, nat>, h: DiGraph, other: map<NodeId, nat>)
    requires Rep(g, index) && Rep(h, other)
    requires Ids(g.nodes) == Ids(h.nodes) && Weights(g.arcs) == Weights(h.arcs)
    requires Lookup(g, index) == Lookup(h, other)
    ensures g == h && index == other
  {
    forall i | 0 <= i < |g.nodes| ensures g.nodes[i] == h.nodes[i] {
      assert Ids(g.nodes)[i] == Ids(h.nodes)[i];
      assert Lookup(g, index)[g.nodes[i].id] == g.nodes[i];
      assert Lookup(h, other)[h.nodes[i].id] == h.nodes[i];
    }
    assert g.nodes == h.nodes;
    assert index == other by {
      forall id | id in index ensures id in other && index[id] == other[id] {
        assert g.nodes[index[id]].id == id;
      }
      forall id | id in other ensures id in index {
        assert h.nodes[other[id]].id == id;
      }
    }
    forall k | 0 <= k < |g.arcs| ensures g.arcs[k] == h.arcs[k] {
      assert g.arcs[k] in g.arcs && h.arcs[k] in h.arcs;
      assert Weights(g.arcs)[k] == Weights(h.arcs)[k];
    }
  }

  lemma TabulationIsLookup(g: DiGraph, index: map<NodeId, nat>)
    requires UniqueIds(g.nodes) && Indexed(g.nodes, index)
    ensures Tabulate(g.nodes) == Lookup(g, index)
  {
    hide UniqueIds;
    TabulatedNodes(g.nodes);
    var m := Tabulate(g.nodes);
    forall id | id in index ensures id in m {
      assert Ids(g.nodes)[index[id]] == id;
    }
    forall id | id in m ensures id in index && m[id] == Lookup(g, index)[id] {
      var i := IndexOf(Ids(g.nodes), id);
      assert g.nodes[i].id == id;
    }
  }

  lemma SoundTabulation(g: DiGraph, index: map<NodeId, nat>)
    requires Sound(g, index)
    ensures WithSources(Tabulate(g.nodes), Weights(g.arcs)) == Lookup(g, index)
  {
    hide HasCycle, Anchored;
    TabulationIsLookup(g, index);
    var m := Tabulate(g.nodes);
    forall v | v in m ensures m[v].dependencies + Sources(Weights(g.arcs), v) == m[v].dependencies {
    }
  }

  /** Round trip: the wire form of a sound graph is loadable, and a sound graph with the
      view that `FromWire` promises for it is the same graph, indices included. */
  lemma WireRoundTrip(name: string, g: DiGraph, index: map<NodeId, nat>, h: DiGraph, other: map<NodeId, nat>)
    requires Sound(g, index)
    ensures Loadable(WireOf(name, g))
    ensures var wire := WireOf(name, g);
            Rep(h, other) && Ids(h.nodes) == Ids(wire.nodes) && Weights(h.arcs) == wire.edges
            && Lookup(h, other) == WithSources(Tabulate(wire.nodes), wire.edges) ==>
            h == g && other == index
  {
    RepCovers(g, index);
    forall id | id in index ensures id in Ids(g.nodes) {
      assert Ids(g.nodes)[index[id]] == id;
    }
    SoundTabulation(g, index);
    if Rep(h, other) && Ids(h.nodes) == Ids(g.nodes) && Weights(h.arcs) == Weights(g.arcs)
       && Lookup(h, other) == Lookup(g, index) {
      ViewDetermines(g, index, h, other);
    }
  }

  /** Writing a graph out and reading it back succeeds and rebuilds it exactly. */
  method Reload(g: ExecutionGraph) returns (r: Result<ExecutionGraph, GraphError>)
    requires g.Valid()
    ensures r.Ok? && fresh(r.value) && r.value.Valid()
    ensures r.value.name == g.name && r.value.graph == g.graph && r.value.indexMap == g.indexMap
  {
    WireRoundTrip(g.name, g.graph, g.indexMap, g.graph, g.indexMap);
    r := FromWire(WireOf(g.name, g.graph));
    WireRoundTrip(g.name, g.graph, g.indexMap, r.value.graph, r.value.indexMap);
  }
}
