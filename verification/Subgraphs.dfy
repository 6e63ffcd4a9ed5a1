/** Extraction of the connected subgraph around a node. */
module Subgraphs {
  import opened Prelude
  import opened Nodes
  import opened Edges
  import opened Topology
  import opened DiGraphs
  import opened ExecutionGraphs
  import opened Reachability
  import opened Traversals

  /** The nodes connected to `root` by edges taken in either direction. */
  ghost predicate Connected(edges: seq<Edge>, root: NodeId, v: NodeId) {
    Reaches(StepOf(edges, Either), root, v)
  }

  /** Of the edges whose source lies in `nodes`, `part` has exactly those, as often as they occur. */
  ghost predicate EdgesFrom(edges: seq<Edge>, nodes: set<NodeId>, part: seq<Edge>) {
    forall e: Edge :: multiset(part)[e] == if e.source in nodes then multiset(edges)[e] else 0
  }

  /** `sub` is being filled: it has the nodes of `component` as `whole` has them, and
      only edges of `whole`. */
  ghost predicate PartOf(sub: ExecutionGraph, m: map<NodeId, Node>, edges: seq<Edge>, component: set<NodeId>)
    reads sub
  {
    && sub.Valid()
    && component <= m.Keys && sub.nodes == Restricted(m, component)
  }

  function Restricted(m: map<NodeId, Node>, nodes: set<NodeId>): map<NodeId, Node>
    requires nodes <= m.Keys
  {
    map v | v in nodes :: m[v]
  }

  /** The edges of a part taken from the first `k` edges with source `v`, on top of those from `done`. */
  ghost predicate Copied(edges: seq<Edge>, done: set<NodeId>, v: NodeId, k: nat, part: seq<Edge>)
    requires k <= |edges|
  {
    forall e: Edge :: multiset(part)[e] ==
      if e.source in done then multiset(edges)[e] else if e.source == v then multiset(edges[..k])[e] else 0
  }

  lemma CopyStep(edges: seq<Edge>, done: set<NodeId>, v: NodeId, k: nat, part: seq<Edge>)
    requires k < |edges| && v !in done && Copied(edges, done, v, k, part)
    ensures edges[k].source == v ==> Copied(edges, done, v, k + 1, part + [edges[k]])
    ensures edges[k].source != v ==> Copied(edges, done, v, k + 1, part)
  {
    assert edges[..k + 1] == edges[..k] + [edges[k]];
  }

  lemma CopiedEdgesAreEdges(edges: seq<Edge>, done: set<NodeId>, v: NodeId, k: nat, part: seq<Edge>)
    requires k <= |edges| && Copied(edges, done, v, k, part)
    ensures forall e :: e in part ==> e in edges
  {
    assert edges == edges[..k] + edges[k..];
    forall e | e in part ensures e in edges {
      assert multiset(part)[e] > 0;
      assert multiset(edges[..k])[e] <= multiset(edges)[e];
      assert multiset(edges)[e] > 0;
    }
  }

  /** Adding an edge of an acyclic graph to some of its other edges closes no cycle. */
  lemma NoNewCycle(edges: seq<Edge>, part: seq<Edge>, e: Edge)
    requires !HasCycle(edges) && e in edges && forall x :: x in part ==> x in edges
    ensures !HasCycle(part + [e])
  {
    FewerEdgesStayAcyclic(edges, part + [e]);
  }

  lemma DependencyIsThere(m: map<NodeId, Node>, edges: seq<Edge>, component: set<NodeId>, e: Edge)
    requires DependenciesCover(m, edges) && component <= m.Keys && e in edges && e.target in component
    ensures WithDependency(Restricted(m, component), e) == Restricted(m, component)
  {
    assert e.source in Sources(edges, e.target);
    assert m[e.target].dependencies + {e.source} == m[e.target].dependencies;
  }

  method CopyEdge(sub: ExecutionGraph, graph: ExecutionGraph, e: Edge, ghost component: set<NodeId>)
    requires sub != graph && graph.Valid() && PartOf(sub, graph.nodes, graph.edges, component)
    requires e in graph.edges && e.source in component && e.target in component
    requires forall x :: x in sub.edges ==> x in graph.edges
    modifies sub
    ensures PartOf(sub, graph.nodes, graph.edges, component) && sub.name == old(sub.name)
    ensures sub.edges == old(sub.edges) + [e]
  {
    hide Sound, Covers, HasCycle, StatesOf, WithDependency, DependenciesCover;
    GraphDependencies(graph);
    NoNewCycle(graph.edges, sub.edges, e);
    DependencyIsThere(graph.nodes, graph.edges, component, e);
    assert e.source in sub.nodes && e.target in sub.nodes;
    var r := sub.AddEdge(e);
  }

  /** Copies the outgoing edges of one node of the component. */
  method CopyEdges(
      sub: ExecutionGraph, graph: ExecutionGraph, v: NodeId, ghost component: set<NodeId>,
      ghost done: set<NodeId>)
    requires sub != graph && graph.Valid() && PartOf(sub, graph.nodes, graph.edges, component)
    requires v in component && v !in done
    requires forall e :: e in graph.edges && e.source == v ==> e.target in component
    requires EdgesFrom(graph.edges, done, sub.edges)
    modifies sub
    ensures PartOf(sub, graph.nodes, graph.edges, component) && sub.name == old(sub.name)
    ensures EdgesFrom(graph.edges, done + {v}, sub.edges)
  {
    hide PartOf, Copied, EdgesFrom;
    var edges := Weights(graph.graph.arcs);
    FromStart(edges, done, v, sub.edges);
    for k := 0 to |edges|
      invariant PartOf(sub, graph.nodes, edges, component) && sub.name == old(sub.name)
      invariant Copied(edges, done, v, k, sub.edges)
    {
      CopyStep(edges, done, v, k, sub.edges);
      if edges[k].source == v {
        assert edges[k] in edges;
        CopiedEdgesAreEdges(edges, done, v, k, sub.edges);
        CopyEdge(sub, graph, edges[k], component);
      }
    }
    ToEnd(edges, done, v, sub.edges);
  }

  lemma FromStart(edges: seq<Edge>, done: set<NodeId>, v: NodeId, part: seq<Edge>)
    requires EdgesFrom(edges, done, part)
    ensures Copied(edges, done, v, 0, part)
  {
  }

  lemma ToEnd(edges: seq<Edge>, done: set<NodeId>, v: NodeId, part: seq<Edge>)
    requires Copied(edges, done, v, |edges|, part)
    ensures EdgesFrom(edges, done + {v}, part)
  {
    assert edges[..|edges|] == edges;
  }

  lemma GraphDependencies(graph: ExecutionGraph)
    requires graph.Valid()
    ensures !HasCycle(graph.edges) && DependenciesCover(graph.nodes, graph.edges)
  {
  }

  method CopyNode(sub: ExecutionGraph, graph: ExecutionGraph, v: NodeId, ghost done: set<NodeId>)
    requires sub != graph && graph.Valid() && PartOf(sub, graph.nodes, graph.edges, done)
    requires v in graph.nodes && v !in done
    modifies sub
    ensures PartOf(sub, graph.nodes, graph.edges, done + {v})
    ensures sub.name == old(sub.name) && sub.edges == old(sub.edges)
  {
    hide Sound, Covers, StatesOf;
    KeptIdentifier(graph, v);
    var node := graph.GetNode(v).value;
    var _ := sub.AddNode(node);
  }

  /** A new graph with copies of the nodes of `component`. */
  method CopyNodes(graph: ExecutionGraph, name: string, component: set<NodeId>) returns (sub: ExecutionGraph)
    requires graph.Valid() && component <= graph.nodes.Keys
    ensures fresh(sub) && PartOf(sub, graph.nodes, graph.edges, component)
    ensures sub.edges == [] && sub.name == name
  {
    hide Sound, Covers, StatesOf;
    sub := new ExecutionGraph(name);
    var left := component;
    assert component - component == {};
    while left != {}
      invariant left <= component && fresh(sub)
      invariant PartOf(sub, graph.nodes, graph.edges, component - left) && sub.edges == [] && sub.name == name
      decreases left
    {
      hide PartOf;
      var v :| v in left;
      CopyNode(sub, graph, v, component - left);
      assert component - left + {v} == component - (left - {v});
      left := left - {v};
    }
    assert component - {} == component;
  }

  lemma KeptIdentifier(graph: ExecutionGraph, v: NodeId)
    requires graph.Valid() && v in graph.nodes
    ensures graph.nodes[v].id == v
  {
  }

  lemma ComponentHoldsNeighbors(edges: seq<Edge>, root: NodeId, component: set<NodeId>, e: Edge)
    requires forall v :: v in component <==> Connected(edges, root, v)
    requires e in edges && e.source in component
    ensures e.target in component
  {
    assert Link(edges, e.source, e.target);
    ReachesFurther(StepOf(edges, Either), root, e.source, e.target);
  }

  lemma ComponentIsInGraph(graph: ExecutionGraph, root: NodeId, component: set<NodeId>)
    requires graph.Valid() && root in graph.nodes
    requires forall v :: v in component <==> Connected(graph.edges, root, v)
    ensures component <= graph.nodes.Keys
  {
    assert ClosedUnder(StepOf(graph.edges, Either), graph.nodes.Keys);
    ClosedHoldsReachable(StepOf(graph.edges, Either), graph.nodes.Keys, root);
  }

  /** The subgraph around `root`: exactly the nodes connected to it, each as it was, with
      exactly their edges. */
  method Subgraph(graph: ExecutionGraph, root: NodeId) returns (r: Result<ExecutionGraph, GraphError>)
    requires graph.Valid()
    ensures root !in graph.nodes <==> r.Err?
    ensures r.Err? ==> r.error == NodeNotFound(root)
    ensures r.Ok? ==> fresh(r.value) && r.value.Valid()
    ensures r.Ok? ==> forall v :: v in r.value.nodes <==> Connected(graph.edges, root, v)
    ensures r.Ok? ==> forall v :: v in r.value.nodes ==> v in graph.nodes && r.value.nodes[v] == graph.nodes[v]
    ensures r.Ok? ==> forall e: Edge :: multiset(r.value.edges)[e] ==
                        if e.source in r.value.nodes || e.target in r.value.nodes then multiset(graph.edges)[e] else 0
  {
    hide Sound, Covers, Connected, EdgesFrom;
    if root !in graph.indexMap {
      return Err(NodeNotFound(root));
    }
    var component := Closure(Weights(graph.graph.arcs), Either, root);
    ComponentIsComplete(graph.edges, root, component);
    ComponentIsInGraph(graph, root, component);
    var sub := CopyNodes(graph, graph.name + "_sub", component);
    NothingCopied(graph.edges);
    var left := component;
    assert component - component == {};
    while left != {}
      invariant left <= component && fresh(sub)
      invariant PartOf(sub, graph.nodes, graph.edges, component)
      invariant EdgesFrom(graph.edges, component - left, sub.edges)
      decreases left
    {
      var v :| v in left;
      forall e | e in graph.edges && e.source == v ensures e.target in component {
        ComponentHoldsNeighbors(graph.edges, root, component, e);
      }
      CopyEdges(sub, graph, v, component, component - left);
      assert component - left + {v} == component - (left - {v});
      left := left - {v};
    }
    assert component - {} == component;
    EdgesTouchComponent(graph.edges, root, component, sub.edges);
    r := Ok(sub);
  }

  lemma NothingCopied(edges: seq<Edge>)
    ensures EdgesFrom(edges, {}, [])
  {
  }

  lemma ComponentIsComplete(edges: seq<Edge>, root: NodeId, component: set<NodeId>)
    requires forall v :: v in component <==> Reaches(StepOf(edges, Either), root, v)
    ensures forall v :: v in component <==> Connected(edges, root, v)
  {
  }

  lemma EdgesTouchComponent(edges: seq<Edge>, root: NodeId, component: set<NodeId>, part: seq<Edge>)
    requires forall v :: v in component <==> Connected(edges, root, v)
    requires EdgesFrom(edges, component, part)
    ensures forall e: Edge :: multiset(part)[e] ==
              if e.source in component || e.target in component then multiset(edges)[e] else 0
  {
    forall e: Edge | e.target in component && e.source !in component ensures multiset(edges)[e] == 0 {
      if e in edges {
        assert Link(edges, e.source, e.target);
        ReachesFurther(StepOf(edges, Either), root, e.target, e.source);
      }
    }
  }

  // ----- What the documentation promises -----

  /** The root, its transitive dependencies and its transitive dependents. */
  ghost predicate Kin(edges: seq<Edge>, root: NodeId, v: NodeId) {
    v == root || Precedes(edges, v, root) || Precedes(edges, root, v)
  }

  lemma {:induction false} WalkConnects(edges: seq<Edge>, p: seq<NodeId>, i: nat)
    requires Walk(edges, p) && i < |p|
    ensures Reaches(StepOf(edges, Either), p[0], p[i]) && Reaches(StepOf(edges, Either), p[|p| - 1], p[|p| - 1 - i])
  {
    if i == 0 {
      ReachesItself(StepOf(edges, Either), p[0]);
      ReachesItself(StepOf(edges, Either), p[|p| - 1]);
    } else {
      WalkConnects(edges, p, i - 1);
      assert Link(edges, p[i - 1], p[i - 1 + 1]);
      ReachesFurther(StepOf(edges, Either), p[0], p[i - 1], p[i]);
      assert Link(edges, p[|p| - 1 - i], p[|p| - 1 - i + 1]);
      ReachesFurther(StepOf(edges, Either), p[|p| - 1], p[|p| - i], p[|p| - 1 - i]);
    }
  }

  lemma KinIsConnected(edges: seq<Edge>, root: NodeId, v: NodeId)
    requires Kin(edges, root, v)
    ensures Connected(edges, root, v)
  {
    if v == root {
      ReachesItself(StepOf(edges, Either), root);
    } else if Precedes(edges, v, root) {
      var p :| Walk(edges, p) && |p| > 1 && p[0] == v && p[|p| - 1] == root;
      WalkConnects(edges, p, |p| - 1);
    } else {
      var p :| Walk(edges, p) && |p| > 1 && p[0] == root && p[|p| - 1] == v;
      WalkConnects(edges, p, |p| - 1);
    }
  }

  /** No edge joins a node of `kin` to one outside. */
  ghost predicate Isolated(edges: seq<Edge>, kin: set<NodeId>) {
    forall e :: e in edges ==> (e.source in kin <==> e.target in kin)
  }

  /** The extracted nodes are the root, its dependencies and its dependents, and no more,
      exactly when no edge joins those to another node. */
  lemma SubgraphIsKinIffIsolated(edges: seq<Edge>, root: NodeId, kin: set<NodeId>)
    requires forall v :: v in kin <==> Kin(edges, root, v)
    ensures (forall v :: Connected(edges, root, v) <==> v in kin) <==> Isolated(edges, kin)
  {
    hide Kin, Precedes;
    forall v | v in kin ensures Connected(edges, root, v) {
      KinIsConnected(edges, root, v);
    }
    if Isolated(edges, kin) {
      assert ClosedUnder(StepOf(edges, Either), kin);
      RootIsKin(edges, root);
      ClosedHoldsReachable(StepOf(edges, Either), kin, root);
    }
    if forall v :: Connected(edges, root, v) <==> v in kin {
      forall e | e in edges ensures e.source in kin <==> e.target in kin {
        assert Link(edges, e.source, e.target);
        if e.source in kin {
          ReachesFurther(StepOf(edges, Either), root, e.source, e.target);
        }
        if e.target in kin {
          ReachesFurther(StepOf(edges, Either), root, e.target, e.source);
        }
      }
    }
  }

  lemma RootIsKin(edges: seq<Edge>, root: NodeId)
    ensures Kin(edges, root, root)
  {
  }

  /** Two dependencies of one node: the subgraph of the first also holds the second. */
  lemma SubgraphHoldsMoreThanKin()
    ensures var edges := [Edge(0, 1, DependsOn, None, 1), Edge(2, 1, DependsOn, None, 1)];
            Connected(edges, 0, 2) && !Kin(edges, 0, 2)
  {
    var edges := [Edge(0, 1, DependsOn, None, 1), Edge(2, 1, DependsOn, None, 1)];
    var up, down := edges[1], edges[0];
    assert up in edges && down in edges;
    assert Link(edges, 0, 1) && Link(edges, 2, 1);
    ReachesItself(StepOf(edges, Either), 0);
    ReachesFurther(StepOf(edges, Either), 0, 0, 1);
    ReachesFurther(StepOf(edges, Either), 0, 1, 2);
    var rank: map<NodeId, nat> := map[0 := 0, 2 := 0, 1 := 1];
    assert Ranked(edges, rank);
    forall p | Walk(edges, p) && |p| > 1 ensures !(p[0] == 0 && p[|p| - 1] == 2) && !(p[0] == 2 && p[|p| - 1] == 0) {
      WalkRaisesRank(edges, rank, p);
    }
  }
}
