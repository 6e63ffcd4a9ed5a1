/** The two iterators over an execution graph. Both yield every node reachable from the
    roots exactly once: the breadth-first one in the order of distance from the roots, the
    depth-first one in the order of the recursive depth-first search. */
module Iterators {
  import opened Prelude
  import opened Nodes
  import opened Edges
  import opened Topology
  import opened Reachability
  import opened Traversals

  // ----- Distance from the roots -----

  /** Some path of `n` edges leads from one of `starts` to `v`. */
  ghost predicate ReachesIn(edges: seq<Edge>, starts: set<NodeId>, v: NodeId, n: nat) {
    exists p :: Path(StepOf(edges, Outgoing), p) && |p| == n + 1 && p[0] in starts && p[n] == v
  }

  /** `u` is at most as far from the starts as `v`. */
  ghost predicate NoFarther(edges: seq<Edge>, starts: set<NodeId>, u: NodeId, v: NodeId) {
    forall n: nat :: ReachesIn(edges, starts, v, n) ==> exists m: nat :: m <= n && ReachesIn(edges, starts, u, m)
  }

  ghost predicate InDepthOrder(depth: map<NodeId, nat>, s: seq<NodeId>) {
    && (forall v :: v in s ==> v in depth)
    && forall i, j :: 0 <= i < j < |s| ==> depth[s[i]] <= depth[s[j]]
  }

  /** The targets of edges from yielded nodes are at most one level deeper. */
  ghost predicate Rising(edges: seq<Edge>, yielded: seq<NodeId>, all: seq<NodeId>, depth: map<NodeId, nat>)
    requires forall v :: v in yielded || v in all ==> v in depth
  {
    forall u, v :: u in yielded && Adjacent(edges, Outgoing, u, v) ==> v in all && depth[v] <= depth[u] + 1
  }

  /** Depths of the visited nodes: attained by paths, rising by at most one along the
      edges of yielded nodes, in order over what was yielded and is queued, and spanning
      at most two levels in the queue. */
  ghost predicate Levels(
      edges: seq<Edge>, starts: set<NodeId>, yielded: seq<NodeId>, queue: seq<NodeId>,
      depth: map<NodeId, nat>)
  {
    && InDepthOrder(depth, yielded + queue) && (forall v :: v in yielded || v in queue ==> v in yielded + queue)
    && (forall v :: v in yielded + queue ==> ReachesIn(edges, starts, v, depth[v]))
    && (forall v :: v in starts ==> v in yielded + queue && depth[v] == 0)
    && Rising(edges, yielded, yielded + queue, depth)
    && (forall u, v :: u in queue && v in queue ==> depth[v] <= depth[u] + 1)
  }

  lemma StartLevels(edges: seq<Edge>, starts: set<NodeId>, queue: seq<NodeId>)
    requires forall v :: v in queue <==> v in starts
    ensures Levels(edges, starts, [], queue, map v | v in starts :: 0)
  {
    assert [] + queue == queue;
    forall v | v in starts ensures ReachesIn(edges, starts, v, 0) {
      assert Path(StepOf(edges, Outgoing), [v]);
    }
  }

  lemma ReachesInOneMore(edges: seq<Edge>, starts: set<NodeId>, u: NodeId, v: NodeId, n: nat)
    requires ReachesIn(edges, starts, u, n) && Adjacent(edges, Outgoing, u, v)
    ensures ReachesIn(edges, starts, v, n + 1)
  {
    hide Adjacent;
    var p :| Path(StepOf(edges, Outgoing), p) && |p| == n + 1 && p[0] in starts && p[n] == u;
    var q := p + [v];
    forall i | 0 <= i < |q| - 1 ensures StepOf(edges, Outgoing)(q[i], q[i + 1]) {
      if i < |p| - 1 {
        assert StepOf(edges, Outgoing)(p[i], p[i + 1]);
      }
    }
    assert Path(StepOf(edges, Outgoing), q) && |q| == n + 2 && q[0] in starts && q[n + 1] == v;
  }

  /** The depths with the newly visited nodes at depth `d`. */
  function Deepened(depth: map<NodeId, nat>, s: seq<NodeId>, d: nat): (r: map<NodeId, nat>)
    ensures forall v :: v in r <==> v in depth || v in s
    ensures forall v :: v in depth ==> r[v] == depth[v]
    ensures forall v :: v in s && v !in depth ==> r[v] == d
  {
    map v | v in depth.Keys + Elements(s) :: if v in depth then depth[v] else d
  }

  lemma OrderGrows(depth: map<NodeId, nat>, all: seq<NodeId>, added: seq<NodeId>, d: nat)
    requires InDepthOrder(depth, all) && (forall v :: v in all ==> depth[v] <= d)
    requires forall v :: v in added ==> v !in depth
    ensures InDepthOrder(Deepened(depth, added, d), all + added)
  {
    var r, s := Deepened(depth, added, d), all + added;
    forall i, j | 0 <= i < j < |s| ensures r[s[i]] <= r[s[j]] {
      if j >= |all| {
        assert s[j] in added;
        assert if i < |all| then s[i] in all else s[i] in added;
      } else {
        assert s[i] == all[i] && s[j] == all[j];
      }
    }
  }

  /** The head of the queue is the shallowest queued node, and no yielded node is deeper. */
  lemma HeadIsShallowest(depth: map<NodeId, nat>, yielded: seq<NodeId>, queue: seq<NodeId>)
    requires InDepthOrder(depth, yielded + queue) && queue != []
    ensures forall u :: u in yielded ==> u in depth && depth[u] <= depth[queue[0]]
    ensures forall u :: u in queue ==> u in depth && depth[queue[0]] <= depth[u]
  {
    var all := yielded + queue;
    assert all[|yielded|] == queue[0];
    forall u | u in yielded ensures depth[u] <= depth[queue[0]] {
      var i :| 0 <= i < |yielded| && yielded[i] == u;
      assert all[i] == u;
    }
    forall u | u in queue ensures depth[queue[0]] <= depth[u] {
      var i :| 0 <= i < |queue| && queue[i] == u;
      assert all[|yielded| + i] == u;
    }
  }

  /** What expanding the head of the queue appends: its unvisited neighbours. */
  lemma AppendedNeighbors(
      edges: seq<Edge>, v: NodeId, rest: seq<NodeId>, visited: set<NodeId>, visited': set<NodeId>,
      queue': seq<NodeId>)
      returns (added: seq<NodeId>)
    requires visited' == visited + NeighborsAlong(edges, Outgoing, v, |edges|)
    requires Enqueued(visited, rest, visited', queue')
    requires forall u :: u in rest ==> u in visited
    ensures queue' == rest + added
    ensures forall u :: u in added ==> u !in visited && Adjacent(edges, Outgoing, v, u)
    ensures forall u :: Adjacent(edges, Outgoing, v, u) ==> u in visited || u in added
  {
    hide Adjacent, NeighborsAlong;
    NeighborsAreAdjacent(edges, Outgoing, v);
    added := queue'[|rest|..];
    forall u | u in added ensures u !in visited && u in visited' {
      var i :| 0 <= i < |added| && added[i] == u;
      assert queue'[|rest| + i] == u && u in queue';
    }
    forall u | u in visited' && u !in visited ensures u in added {
      assert u in queue';
    }
  }

  /** Yielding the head of the queue puts its new neighbours one level below it. */
  lemma NextLevels(
      edges: seq<Edge>, starts: set<NodeId>, yielded: seq<NodeId>, v: NodeId, rest: seq<NodeId>,
      added: seq<NodeId>, depth: map<NodeId, nat>)
    requires Levels(edges, starts, yielded, [v] + rest, depth) && depth.Keys == Elements(yielded + ([v] + rest))
    requires forall u :: u in added ==> u !in depth && Adjacent(edges, Outgoing, v, u)
    requires forall u :: Adjacent(edges, Outgoing, v, u) ==> u in depth || u in added
    ensures v in depth && Levels(edges, starts, yielded + [v], rest + added, Deepened(depth, added, depth[v] + 1))
  {
    hide ReachesIn, Adjacent, Deepened;
    var all, queue := yielded + ([v] + rest), [v] + rest;
    var now := yielded + [v] + (rest + added);
    assert now == all + added && queue[0] == v;
    HeadIsShallowest(depth, yielded, queue);
    assert v in queue && v in all;
    assert forall u :: u in all <==> u in yielded || u in queue;
    OrderGrows(depth, all, added, depth[v] + 1);
    var r := Deepened(depth, added, depth[v] + 1);
    forall u | u in added ensures ReachesIn(edges, starts, u, depth[v] + 1) {
      ReachesInOneMore(edges, starts, v, u, depth[v]);
    }
    assert forall u :: u in depth ==> u in all by {
      assert forall u :: u in depth.Keys <==> u in Elements(all);
    }
    NextRises(edges, yielded, v, all, added, depth);
  }

  lemma NextRises(
      edges: seq<Edge>, yielded: seq<NodeId>, v: NodeId, all: seq<NodeId>, added: seq<NodeId>,
      depth: map<NodeId, nat>)
    requires (forall u :: u in depth <==> u in all) && (forall u :: u in yielded ==> u in all) && v in all
    requires Rising(edges, yielded, all, depth)
    requires forall u :: u in all ==> depth[u] <= depth[v] + 1
    requires forall u :: Adjacent(edges, Outgoing, v, u) ==> u in depth || u in added
    ensures Rising(edges, yielded + [v], all + added, Deepened(depth, added, depth[v] + 1))
  {
    hide Adjacent, Deepened;
  }

  /** Along a path from a start, either some node is still queued at no more than its
      position, or the last one has been yielded at no more than its position. */
  lemma {:induction false} AlongPath(
      edges: seq<Edge>, starts: set<NodeId>, yielded: seq<NodeId>, queue: seq<NodeId>,
      depth: map<NodeId, nat>, p: seq<NodeId>, k: nat)
    requires Levels(edges, starts, yielded, queue, depth) && Path(StepOf(edges, Outgoing), p) && p[0] in starts
    requires k < |p|
    ensures (exists i :: 0 <= i <= k && p[i] in queue && depth[p[i]] <= i) || (p[k] in yielded && depth[p[k]] <= k)
  {
    hide ReachesIn, Adjacent;
    assert p[0] in yielded + queue;
    if k > 0 {
      AlongPath(edges, starts, yielded, queue, depth, p, k - 1);
      if p[k - 1] in yielded && depth[p[k - 1]] <= k - 1 {
        assert StepOf(edges, Outgoing)(p[k - 1], p[k - 1 + 1]);
      }
    }
  }

  /** The depth of the first queued node is its distance, and no yielded node is farther. */
  lemma HeadIsNearest(
      edges: seq<Edge>, starts: set<NodeId>, yielded: seq<NodeId>, queue: seq<NodeId>,
      depth: map<NodeId, nat>, u: NodeId)
    requires Levels(edges, starts, yielded, queue, depth) && queue != [] && u in yielded
    requires queue[0] !in yielded
    ensures NoFarther(edges, starts, u, queue[0])
  {
    hide Adjacent;
    var v := queue[0];
    assert v in queue;
    HeadIsShallowest(depth, yielded, queue);
    forall n: nat | ReachesIn(edges, starts, v, n) ensures exists m: nat :: m <= n && ReachesIn(edges, starts, u, m) {
      var p :| Path(StepOf(edges, Outgoing), p) && |p| == n + 1 && p[0] in starts && p[n] == v;
      AlongPath(edges, starts, yielded, queue, depth, p, n);
      var i :| 0 <= i <= n && p[i] in queue && depth[p[i]] <= i;
      assert u in yielded + queue && ReachesIn(edges, starts, u, depth[u]);
      assert depth[u] <= depth[p[i]] <= n;
    }
  }

  lemma RestIsVisited(yielded: seq<NodeId>, v: NodeId, rest: seq<NodeId>, visited: set<NodeId>)
    requires Elements(yielded + ([v] + rest)) == visited
    ensures forall u :: u in rest ==> u in visited
  {
    forall u | u in rest ensures u in visited {
      assert u in yielded + ([v] + rest);
    }
  }

  lemma VisitedGrow(
      edges: seq<Edge>, v: NodeId, before: set<NodeId>, added: seq<NodeId>, rest: seq<NodeId>,
      visited: set<NodeId>, queue: seq<NodeId>)
    requires Enqueued(before, rest, visited, queue) && queue == rest + added && forall u :: u in rest ==> u in before
    ensures visited == before + Elements(added)
  {
    forall u | u in added ensures u in visited {
      assert u in queue;
    }
    forall u | u in visited && u !in before ensures u in added {
      assert u in queue;
    }
  }

  lemma QueuedIsReached(edges: seq<Edge>, starts: set<NodeId>, visited: set<NodeId>, queue: seq<NodeId>)
    requires Exploring(edges, Outgoing, starts, visited, queue)
    ensures forall v :: v in queue ==> v in visited && ReachedFrom(edges, Outgoing, starts, v)
  {
  }

  /** Nothing is yielded twice, the visited nodes are those yielded or queued, and both are in
      the order of their depths. */
  ghost predicate InBreadth(
      edges: seq<Edge>, starts: set<NodeId>, yielded: seq<NodeId>, queue: seq<NodeId>, visited: set<NodeId>,
      depth: map<NodeId, nat>)
  {
    && Exploring(edges, Outgoing, starts, visited, queue)
    && Distinct(yielded + queue) && Elements(yielded + queue) == visited
    && Levels(edges, starts, yielded, queue, depth) && depth.Keys == visited
  }

  /** Yielding the head of the queue, with its new neighbours queued behind. */
  lemma BreadthGoesOn(
      edges: seq<Edge>, starts: set<NodeId>, yielded: seq<NodeId>, v: NodeId, rest: seq<NodeId>, visited: set<NodeId>,
      depth: map<NodeId, nat>, visited': set<NodeId>, queue': seq<NodeId>)
      returns (depth': map<NodeId, nat>)
    requires InBreadth(edges, starts, yielded, [v] + rest, visited, depth)
    requires visited' == visited + NeighborsAlong(edges, Outgoing, v, |edges|)
    requires Enqueued(visited, rest, visited', queue')
    ensures InBreadth(edges, starts, yielded + [v], queue', visited', depth')
    ensures v !in yielded && ReachedFrom(edges, Outgoing, starts, v)
    ensures forall u :: u in yielded ==> NoFarther(edges, starts, u, v)
  {
    hide Enqueued, NeighborsAlong, ReachedFrom, Levels, NoFarther, Distinct, Deepened, Exploring, Elements, Adjacent;
    var queue := [v] + rest;
    QueuedIsReached(edges, starts, visited, queue);
    ExploreOneMore(edges, Outgoing, starts, visited, queue, rest, v, visited', queue');
    YieldedOneMore(yielded, v, rest, visited, visited', queue');
    forall u | u in yielded ensures NoFarther(edges, starts, u, v) {
      HeadIsNearest(edges, starts, yielded, queue, depth, u);
    }
    RestIsVisited(yielded, v, rest, visited);
    var added := AppendedNeighbors(edges, v, rest, visited, visited', queue');
    NextLevels(edges, starts, yielded, v, rest, added, depth);
    depth' := Deepened(depth, added, depth[v] + 1);
    VisitedGrow(edges, v, visited, added, rest, visited', queue');
    DeepenedKeys(depth, added, depth[v] + 1);
  }

  lemma DeepenedKeys(depth: map<NodeId, nat>, added: seq<NodeId>, n: nat)
    ensures Deepened(depth, added, n).Keys == depth.Keys + Elements(added)
  {
  }

  /** With nothing queued, exactly the nodes reached have been yielded. */
  lemma BreadthIsOver(
      edges: seq<Edge>, starts: set<NodeId>, yielded: seq<NodeId>, visited: set<NodeId>, depth: map<NodeId, nat>)
    requires InBreadth(edges, starts, yielded, [], visited, depth)
    ensures forall v :: v in yielded <==> ReachedFrom(edges, Outgoing, starts, v)
  {
    hide ReachedFrom, Levels, Distinct, Exploring;
    Explored(edges, Outgoing, starts, visited);
    assert yielded + [] == yielded;
    assert forall v :: v in yielded <==> v in Elements(yielded);
  }

  /** Breadth-first iterator. */
  class BreadthFirst {
    const edges: seq<Edge>
    ghost const starts: set<NodeId>
    var queue: seq<NodeId>
    var visited: set<NodeId>
    ghost var yielded: seq<NodeId>
    ghost var depth: map<NodeId, nat>

    ghost predicate Valid()
      reads this
    {
      InBreadth(edges, starts, yielded, queue, visited, depth)
    }

    constructor (nodes: set<NodeId>, edges: seq<Edge>, roots: seq<NodeId>)
      ensures Valid() && yielded == [] && this.edges == edges
      ensures starts == set v | v in roots && v in nodes
    {
      hide Levels, Exploring;
      var queue: seq<NodeId> := [];
      var visited: set<NodeId> := {};
      for i := 0 to |roots|
        invariant Distinct(queue) && Elements(queue) == visited
        invariant visited == set v | v in roots[..i] && v in nodes
      {
        assert forall v :: v in queue <==> v in Elements(queue);
        if roots[i] in nodes && roots[i] !in visited {
          assert Elements(queue + [roots[i]]) == Elements(queue) + {roots[i]};
          visited, queue := visited + {roots[i]}, queue + [roots[i]];
        }
      }
      this.edges, this.queue, this.visited, this.yielded := edges, queue, visited, [];
      this.starts, this.depth := visited, map v | v in visited :: 0;
      new;
      assert roots[..|roots|] == roots;
      assert forall v :: v in queue <==> v in Elements(queue);
      StartExploring(edges, Outgoing, starts, queue);
      StartLevels(edges, starts, queue);
      assert yielded + queue == queue;
    }

    /** Yields one more node, no nearer to the roots than any before; at the end exactly
        the nodes reachable from the roots have been yielded, each once. */
    method Next() returns (r: Option<NodeId>)
      requires Valid()
      modifies this
      ensures Valid()
      ensures r.Some? ==> r.value !in old(yielded) && yielded == old(yielded) + [r.value]
      ensures r.Some? ==> ReachedFrom(edges, Outgoing, starts, r.value)
      ensures r.Some? ==> forall u :: u in old(yielded) ==> NoFarther(edges, starts, u, r.value)
      ensures r.None? ==> yielded == old(yielded)
      ensures r.None? ==> forall v :: v in yielded <==> ReachedFrom(edges, Outgoing, starts, v)
    {
      hide Enqueued, NeighborsAlong, ReachedFrom, NoFarther, InBreadth;
      if queue == [] {
        BreadthIsOver(edges, starts, yielded, visited, depth);
        return None;
      }
      var v, rest := queue[0], queue[1..];
      assert queue == [v] + rest;
      ghost var before := visited;
      visited, queue := Expand(edges, Outgoing, v, visited, rest);
      depth := BreadthGoesOn(edges, starts, yielded, v, rest, before, depth, visited, queue);
      yielded := yielded + [v];
      r := Some(v);
    }
  }

  /** Moving the head of the queue to what was yielded, with new nodes queued behind. */
  lemma YieldedOneMore(
      yielded: seq<NodeId>, v: NodeId, rest: seq<NodeId>, visited: set<NodeId>, visited': set<NodeId>,
      queue': seq<NodeId>)
    requires Distinct(yielded + ([v] + rest)) && Elements(yielded + ([v] + rest)) == visited
    requires Enqueued(visited, rest, visited', queue')
    ensures v !in yielded && v in visited
    ensures Distinct(yielded + [v] + queue') && Elements(yielded + [v] + queue') == visited'
  {
    DistinctConcat(yielded, [v] + rest);
    DistinctConcat([v], rest);
    assert v in Elements([v]);
    DistinctConcat(yielded, [v]);
    assert Elements(queue') == Elements(rest) + (visited' - visited);
    DistinctConcat(yielded + [v], queue');
  }

  // ----- Depth-first order -----

  /** How the graph lists the neighbours of a node: in an order of its own. */
  type Listing = NodeId -> seq<NodeId>

  ghost predicate Lists(edges: seq<Edge>, next: Listing) {
    forall u, v :: u in next(v) <==> Link(edges, v, u)
  }

  /** Listing the edges from the newest to the oldest is one such order. */
  lemma NewestFirstLists(edges: seq<Edge>)
    ensures Lists(edges, v => Reverse(Successors(edges, v)))
  {
    forall u, v ensures u in Reverse(Successors(edges, v)) <==> Link(edges, v, u) {
      ReverseHolds(Successors(edges, v));
    }
  }

  /** The targets of the edges from `v`, in the order of the edges. */
  function Successors(edges: seq<Edge>, v: NodeId): (s: seq<NodeId>)
    ensures forall u :: u in s <==> Link(edges, v, u)
  {
    if edges == [] then []
    else
      assert edges == [edges[0]] + edges[1..];
      (if edges[0].source == v then [edges[0].target] else []) + Successors(edges[1..], v)
  }

  function Without(s: seq<NodeId>, gone: set<NodeId>): (r: seq<NodeId>)
    ensures forall v :: v in r <==> v in s && v !in gone
  {
    if s == [] then [] else (if s[0] in gone then [] else [s[0]]) + Without(s[1..], gone)
  }

  function Within(s: seq<NodeId>, keep: set<NodeId>): (r: seq<NodeId>)
    ensures forall v :: v in r <==> v in s && v in keep
  {
    if s == [] then [] else (if s[0] in keep then [s[0]] else []) + Within(s[1..], keep)
  }

  /** A search that starts from `todo` stays inside `universe`. */
  ghost predicate Confined(next: Listing, universe: set<NodeId>, todo: seq<NodeId>) {
    && (forall v, u :: u in next(v) ==> u in universe)
    && forall v :: v in todo ==> v in universe
  }

  lemma ListedAreEnds(edges: seq<Edge>, next: Listing)
    requires Lists(edges, next)
    ensures forall v, u :: u in next(v) ==> u in Ends(edges)
  {
    forall v, u | u in next(v) ensures u in Ends(edges) {
      assert Link(edges, v, u);
    }
  }

  /** Depth-first order: the first unvisited node, then what its successors lead to, then
      the rest. */
  ghost function Preorder(next: Listing, universe: set<NodeId>, todo: seq<NodeId>, visited: set<NodeId>): seq<NodeId>
    requires Confined(next, universe, todo)
    decreases universe - visited, |todo|
  {
    if todo == [] then []
    else if todo[0] in visited then Preorder(next, universe, todo[1..], visited)
    else
      [todo[0]] + Preorder(next, universe, next(todo[0]) + todo[1..], visited + {todo[0]})
  }

  /** The order is that of the recursive search: everything new that the first nodes lead
      to comes before anything the later ones add. */
  lemma {:induction false} PreorderSplits(
      next: Listing, universe: set<NodeId>, a: seq<NodeId>, b: seq<NodeId>, visited: set<NodeId>)
    requires Confined(next, universe, a) && Confined(next, universe, b)
    ensures Confined(next, universe, a + b)
    ensures var first := Preorder(next, universe, a, visited);
            Preorder(next, universe, a + b, visited) == first + Preorder(next, universe, b, visited + Elements(first))
    decreases universe - visited, |a|
  {
    hide Preorder, Confined;
    ConfinedTogether(next, universe, a, b);
    if a == [] {
      NothingToDo(next, universe, visited);
      assert a + b == b && visited + Elements([]) == visited;
    } else {
      var v, rest := a[0], a[1..];
      assert a == [v] + rest && a + b == [v] + (rest + b);
      PreorderHead(next, universe, v, rest, visited);
      PreorderHead(next, universe, v, rest + b, visited);
      if v in visited {
        PreorderSplits(next, universe, rest, b, visited);
      } else {
        var deeper := next(v) + rest;
        assert next(v) + (rest + b) == deeper + b;
        PreorderSplits(next, universe, deeper, b, visited + {v});
        var tail := Preorder(next, universe, deeper, visited + {v});
        assert visited + {v} + Elements(tail) == visited + Elements([v] + tail);
      }
    }
  }

  lemma ConfinedTogether(next: Listing, universe: set<NodeId>, a: seq<NodeId>, b: seq<NodeId>)
    requires Confined(next, universe, a) && Confined(next, universe, b)
    ensures Confined(next, universe, a + b)
  {
  }

  lemma NothingToDo(next: Listing, universe: set<NodeId>, visited: set<NodeId>)
    ensures Confined(next, universe, []) ==> Preorder(next, universe, [], visited) == []
  {
  }

  lemma PreorderHead(next: Listing, universe: set<NodeId>, v: NodeId, rest: seq<NodeId>, visited: set<NodeId>)
    requires Confined(next, universe, [v] + rest)
    ensures v in universe && Confined(next, universe, rest) && Confined(next, universe, next(v) + rest)
    ensures Preorder(next, universe, [v] + rest, visited) ==
            if v in visited then Preorder(next, universe, rest, visited)
            else [v] + Preorder(next, universe, next(v) + rest, visited + {v})
  {
    var todo := [v] + rest;
    assert todo[0] == v && todo[1..] == rest && v in todo;
    assert forall x :: x in rest ==> x in todo;
  }

  /** The same with what follows the head in three parts. */
  lemma PreorderParts(
      next: Listing, universe: set<NodeId>, v: NodeId, more: seq<NodeId>, s: seq<NodeId>, rest: seq<NodeId>,
      visited: set<NodeId>)
    requires Confined(next, universe, [v] + more + s + rest)
    ensures v in universe && Confined(next, universe, more + s + rest)
    ensures Confined(next, universe, next(v) + more + s + rest)
    ensures Preorder(next, universe, [v] + more + s + rest, visited) ==
            if v in visited then Preorder(next, universe, more + s + rest, visited)
            else [v] + Preorder(next, universe, next(v) + more + s + rest, visited + {v})
  {
    hide Preorder, Confined;
    var listed := next(v);
    assert [v] + more + s + rest == [v] + (more + s + rest);
    assert listed + more + s + rest == listed + (more + s + rest);
    PreorderHead(next, universe, v, more + s + rest, visited);
  }

  lemma WithoutHead(s: seq<NodeId>, gone: set<NodeId>)
    ensures s == [] ==> Without(s, gone) == []
    ensures s != [] ==> Without(s, gone) == (if s[0] in gone then [] else [s[0]]) + Without(s[1..], gone)
  {
  }

  lemma WithinHead(s: seq<NodeId>, keep: set<NodeId>)
    ensures s != [] ==> Within(s, keep) == (if s[0] in keep then [s[0]] else []) + Within(s[1..], keep)
  {
  }

  lemma WithoutIsConfined(
      next: Listing, universe: set<NodeId>, before: seq<NodeId>, s: seq<NodeId>, rest: seq<NodeId>,
      gone: set<NodeId>)
    requires Confined(next, universe, before + s + rest)
    ensures Confined(next, universe, before + Without(s, gone) + rest)
  {
    forall v | v in before + Without(s, gone) + rest ensures v in before + s + rest {
    }
  }

  /** Dropping nodes that are already visited changes nothing. */
  lemma {:induction false} DropVisited(
      next: Listing, universe: set<NodeId>, before: seq<NodeId>, s: seq<NodeId>, rest: seq<NodeId>,
      gone: set<NodeId>, visited: set<NodeId>)
    requires Confined(next, universe, before + s + rest) && gone <= visited
    ensures Confined(next, universe, before + Without(s, gone) + rest)
    ensures Preorder(next, universe, before + Without(s, gone) + rest, visited) ==
            Preorder(next, universe, before + s + rest, visited)
    decreases universe - visited, |before| + 2 * |s|
  {
    hide Preorder, Confined, Without;
    WithoutIsConfined(next, universe, before, s, rest, gone);
    WithoutHead(s, gone);
    var kept := Without(s, gone);
    if before != [] {
      var v, more := before[0], before[1..];
      assert before == [v] + more;
      PreorderParts(next, universe, v, more, kept, rest, visited);
      PreorderParts(next, universe, v, more, s, rest, visited);
      if v in visited {
        DropVisited(next, universe, more, s, rest, gone, visited);
      } else {
        DropVisited(next, universe, next(v) + more, s, rest, gone, visited + {v});
      }
    } else if s != [] {
      var x, more := s[0], s[1..];
      if x in gone {
        assert kept == Without(more, gone);
        assert before + s + rest == [x] + (before + more + rest);
        PreorderHead(next, universe, x, before + more + rest, visited);
        DropVisited(next, universe, before, more, rest, gone, visited);
      } else {
        assert before + s + rest == [x] + more + rest && before + kept + rest == [x] + Without(more, gone) + rest;
        DropVisited(next, universe, [x], more, rest, gone, visited);
      }
    }
  }

  lemma ReverseJoin<T>(a: seq<T>, b: seq<T>)
    ensures Reverse(a + b) == Reverse(b) + Reverse(a)
    ensures Reverse(Reverse(b)) == b
  {
    hide Reverse;
    var l, r := Reverse(a + b), Reverse(b) + Reverse(a);
    forall i | 0 <= i < |l| ensures l[i] == r[i] {
      assert l[i] == (a + b)[|l| - 1 - i];
    }
  }

  /** Pushing one more node of a list that is pushed from its end. */
  lemma OnePush(s: seq<NodeId>, k: nat, chosen: set<NodeId>)
    requires k < |s|
    ensures Reverse(Without(s[k..], chosen)) ==
            Reverse(Without(s[k + 1..], chosen)) + if s[k] in chosen then [] else [s[k]]
    ensures Reverse(Within(s[k..], chosen)) ==
            Reverse(Within(s[k + 1..], chosen)) + if s[k] in chosen then [s[k]] else []
  {
    hide Reverse, Without, Within;
    assert s[k..][0] == s[k] && s[k..][1..] == s[k + 1..];
    WithoutHead(s[k..], chosen);
    WithinHead(s[k..], chosen);
    PushedHead(s[k], Without(s[k + 1..], chosen));
    PushedHead(s[k], Within(s[k + 1..], chosen));
  }

  lemma OnTop(base: seq<NodeId>, s: seq<NodeId>, k: nat, gone: set<NodeId>)
    requires k < |s|
    ensures base + Reverse(Without(s[k..], gone)) ==
            base + Reverse(Without(s[k + 1..], gone)) + if s[k] in gone then [] else [s[k]]
  {
    hide Reverse, Without;
    OnePush(s, k, gone);
  }

  lemma PushedHead(v: NodeId, rest: seq<NodeId>)
    ensures Reverse([v] + rest) == Reverse(rest) + [v]
    ensures [] + rest == rest && Reverse(rest) + [] == Reverse(rest)
  {
    hide Reverse;
    ReverseJoin([v], rest);
    SingleReverse(v);
  }

  lemma SingleReverse(v: NodeId)
    ensures Reverse([v]) == [v]
  {
  }

  /** The roots that are nodes of the graph. */
  function StartsOf(nodes: set<NodeId>, roots: seq<NodeId>): set<NodeId> {
    set v | v in roots && v in nodes
  }

  /** Depth-first iterator. */
  class DepthFirst {
    const edges: seq<Edge>
    const next: Listing
    ghost const starts: set<NodeId>
    var stack: seq<NodeId>
    var visited: set<NodeId>
    ghost var yielded: seq<NodeId>

    /** Nothing is yielded twice; every start and every successor of a yielded node is
        yielded or on the stack, and what is on the stack is reachable. */
    ghost predicate Valid()
      reads this
    {
      && Lists(edges, next)
      && Distinct(yielded) && Elements(yielded) == visited
      && (forall v :: v in starts ==> v in visited || v in stack)
      && (forall v :: v in stack || v in visited ==> ReachedFrom(edges, Outgoing, starts, v))
      && (forall u, v :: u in visited && Adjacent(edges, Outgoing, u, v) ==> v in visited || v in stack)
      && Confined(next, Universe(), Reverse(stack))
    }

    ghost function Universe(): set<NodeId> {
      Ends(edges) + starts
    }

    /** What is still to be yielded, in order. */
    ghost function ToCome(): seq<NodeId>
      requires Valid()
      reads this
    {
      Preorder(next, Universe(), Reverse(stack), visited)
    }

    constructor (nodes: set<NodeId>, edges: seq<Edge>, next: Listing, roots: seq<NodeId>)
      requires Lists(edges, next)
      ensures Valid() && yielded == [] && this.edges == edges && this.next == next
      ensures starts == StartsOf(nodes, roots)
      ensures Confined(next, Universe(), Within(roots, nodes))
      ensures ToCome() == Preorder(next, Universe(), Within(roots, nodes), {})
    {
      hide Reverse, Within, Preorder, ReachedFrom, Ends, Confined, Adjacent, Lists, Distinct, Elements, StartsOf;
      var stack := RootStack(nodes, roots);
      StartStack(edges, next, nodes, roots, stack);
      NothingYielded();
      this.edges, this.next, this.stack, this.visited, this.yielded := edges, next, stack, {}, [];
      this.starts := StartsOf(nodes, roots);
    }

    /** The roots among the nodes, the first on top. */
    static method RootStack(nodes: set<NodeId>, roots: seq<NodeId>) returns (stack: seq<NodeId>)
      ensures stack == Reverse(Within(roots, nodes))
    {
      hide Reverse, Within;
      stack := [];
      NothingWithin(roots, nodes);
      for i := 0 to |roots|
        invariant stack == Reverse(Within(roots[|roots| - i..], nodes))
      {
        var root := roots[|roots| - 1 - i];
        OnePush(roots, |roots| - 1 - i, nodes);
        if root in nodes {
          stack := stack + [root];
        }
      }
      assert roots[0..] == roots;
    }

    /** Pushes the unvisited successors of `v`, the first on top. */
    method PushSuccessors(v: NodeId)
      modifies this`stack
      ensures stack == old(stack) + Reverse(Without(next(v), visited))
    {
      hide Reverse, Without, Successors;
      var successors := next(v);
      NothingWithin(successors, visited);
      ghost var base := stack;
      for i := 0 to |successors|
        invariant stack == base + Reverse(Without(successors[|successors| - i..], visited))
      {
        var u := successors[|successors| - 1 - i];
        OnTop(base, successors, |successors| - 1 - i, visited);
        if u !in visited {
          stack := stack + [u];
        }
      }
      assert successors[|successors| - |successors|..] == successors;
    }

    /** Yields the next node in depth-first order; at the end exactly the nodes reachable
        from the roots have been yielded, each once. */
    method Next() returns (r: Option<NodeId>)
      requires Valid()
      modifies this
      ensures Valid()
      ensures r.Some? ==> r.value !in old(yielded) && yielded == old(yielded) + [r.value]
      ensures r.Some? ==> ReachedFrom(edges, Outgoing, starts, r.value)
      ensures r.Some? ==> old(ToCome()) == [r.value] + ToCome()
      ensures r.None? ==> yielded == old(yielded) && old(ToCome()) == []
      ensures r.None? ==> forall v :: v in yielded <==> ReachedFrom(edges, Outgoing, starts, v)
    {
      hide ReachedFrom, Adjacent, Preorder, Ends, Reverse, Without, Successors;
      while stack != []
        invariant Valid() && yielded == old(yielded) && ToCome() == old(ToCome())
        decreases |stack|
      {
        var v, rest := stack[|stack| - 1], stack[..|stack| - 1];
        assert stack == rest + [v];
        ReverseHolds(stack);
        ReverseHolds(rest);
        PopsFirst(next, Universe(), rest, v, visited);
        if v !in visited {
          assert v !in yielded by { assert v in yielded ==> v in Elements(yielded); }
          assert v in stack;
          ghost var before := stack;
          stack, visited, yielded := rest, visited + {v}, yielded + [v];
          assert Elements(yielded) == visited;
          PushSuccessors(v);
          PushedAreReached(edges, starts, v);
          PushedOnTop(edges, next, rest, v, visited, stack);
          return Some(v);
        }
        stack := rest;
      }
      StackIsEmpty(edges, starts, visited);
      NothingToCome(next, Universe(), visited);
      assert forall v :: v in yielded <==> v in Elements(yielded);
      r := None;
    }
  }

  lemma ReverseHolds(s: seq<NodeId>)
    ensures forall v :: v in Reverse(s) <==> v in s
  {
    forall v | v in s ensures v in Reverse(s) {
      var i :| 0 <= i < |s| && s[i] == v;
      assert Reverse(s)[|s| - 1 - i] == v;
    }
  }

  lemma NothingWithin(s: seq<NodeId>, chosen: set<NodeId>)
    ensures s[|s|..] == [] && Reverse(Within(s[|s|..], chosen)) == [] && Reverse(Without(s[|s|..], chosen)) == []
  {
  }

  lemma NothingYielded()
    ensures Distinct<NodeId>([]) && Elements<NodeId>([]) == {}
  {
  }

  lemma StartStack(edges: seq<Edge>, next: Listing, nodes: set<NodeId>, roots: seq<NodeId>, stack: seq<NodeId>)
    requires Lists(edges, next) && stack == Reverse(Within(roots, nodes))
    ensures var starts := StartsOf(nodes, roots);
            && (forall v :: v in starts ==> v in stack)
            && (forall v :: v in stack ==> ReachedFrom(edges, Outgoing, starts, v))
            && Confined(next, Ends(edges) + starts, Reverse(stack))
    ensures Reverse(stack) == Within(roots, nodes)
  {
    hide ReachedFrom, Ends;
    var starts := StartsOf(nodes, roots);
    ListedAreEnds(edges, next);
    ReverseJoin([], Within(roots, nodes));
    ReverseHolds(Within(roots, nodes));
    ReverseHolds(stack);
    forall v | v in stack ensures ReachedFrom(edges, Outgoing, starts, v) {
      StartIsReached(edges, starts, v);
    }
  }

  lemma StartIsReached(edges: seq<Edge>, starts: set<NodeId>, v: NodeId)
    requires v in starts
    ensures ReachedFrom(edges, Outgoing, starts, v)
  {
    ReachesItself(StepOf(edges, Outgoing), v);
  }

  lemma NothingToCome(next: Listing, universe: set<NodeId>, visited: set<NodeId>)
    requires Confined(next, universe, [])
    ensures Preorder(next, universe, [], visited) == []
  {
  }

  /** Popping the top of the stack takes the first node off the depth-first order, or
      passes over it. */
  lemma PopsFirst(next: Listing, universe: set<NodeId>, rest: seq<NodeId>, v: NodeId, visited: set<NodeId>)
    requires Confined(next, universe, Reverse(rest + [v]))
    ensures Confined(next, universe, Reverse(rest)) && v in universe
    ensures v in visited ==>
              Preorder(next, universe, Reverse(rest + [v]), visited) == Preorder(next, universe, Reverse(rest), visited)
    ensures v !in visited ==>
              && Confined(next, universe, Reverse(rest + Reverse(Without(next(v), visited + {v}))))
              && Preorder(next, universe, Reverse(rest + [v]), visited) ==
                 [v] + Preorder(next, universe, Reverse(rest + Reverse(Without(next(v), visited + {v}))), visited + {v})
  {
    hide Preorder, Confined, Reverse, Without;
    ReverseJoin(rest, [v]);
    SingleReverse(v);
    PreorderHead(next, universe, v, Reverse(rest), visited);
    if v !in visited {
      var s := next(v);
      var kept := Without(s, visited + {v});
      ReverseJoin(rest, Reverse(kept));
      ReverseJoin([], kept);
      assert [] + s + Reverse(rest) == s + Reverse(rest);
      assert [] + kept + Reverse(rest) == Reverse(rest + Reverse(kept));
      DropVisited(next, universe, [], s, Reverse(rest), visited + {v}, visited + {v});
    }
  }

  /** What the pushes leave on the stack. */
  lemma PushedOnTop(
      edges: seq<Edge>, next: Listing, rest: seq<NodeId>, v: NodeId, visited: set<NodeId>, stack: seq<NodeId>)
    requires Lists(edges, next) && stack == rest + Reverse(Without(next(v), visited))
    ensures forall u :: u in stack <==> u in rest || (Adjacent(edges, Outgoing, v, u) && u !in visited)
    ensures forall u :: u in Reverse(stack) <==> u in stack
  {
    ReverseHolds(Without(next(v), visited));
    ReverseHolds(stack);
  }

  lemma PushedAreReached(edges: seq<Edge>, starts: set<NodeId>, v: NodeId)
    requires ReachedFrom(edges, Outgoing, starts, v)
    ensures forall u :: Adjacent(edges, Outgoing, v, u) ==> ReachedFrom(edges, Outgoing, starts, u) && u in Ends(edges)
  {
    forall u | Adjacent(edges, Outgoing, v, u) ensures ReachedFrom(edges, Outgoing, starts, u) && u in Ends(edges) {
      var s :| s in starts && Reaches(StepOf(edges, Outgoing), s, v);
      ReachesFurther(StepOf(edges, Outgoing), s, v, u);
    }
  }

  lemma StackIsEmpty(edges: seq<Edge>, starts: set<NodeId>, visited: set<NodeId>)
    requires starts <= visited && forall v :: v in visited ==> ReachedFrom(edges, Outgoing, starts, v)
    requires forall u, v :: u in visited && Adjacent(edges, Outgoing, u, v) ==> v in visited
    ensures forall v :: v in visited <==> ReachedFrom(edges, Outgoing, starts, v)
  {
    assert Exploring(edges, Outgoing, starts, visited, []);
    Explored(edges, Outgoing, starts, visited);
  }
}
