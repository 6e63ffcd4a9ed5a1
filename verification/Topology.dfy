/** Walks, cycles and topological ranks of an edge list. */
module Topology {
  import opened Prelude
  import opened Nodes
  import opened Edges

  ghost predicate Link(edges: seq<Edge>, u: NodeId, v: NodeId) {
    exists e :: e in edges && e.source == u && e.target == v
  }

  ghost predicate Walk(edges: seq<Edge>, p: seq<NodeId>) {
    |p| > 0 && forall i :: 0 <= i < |p| - 1 ==> Link(edges, p[i], p[i + 1])
  }

  ghost predicate HasCycle(edges: seq<Edge>) {
    exists p :: Walk(edges, p) && |p| > 1 && p[0] == p[|p| - 1]
  }

  /** A certificate of acyclicity: ranks that every edge increases. */
  ghost predicate Ranked(edges: seq<Edge>, rank: map<NodeId, nat>) {
    forall e :: e in edges ==> e.source in rank && e.target in rank && rank[e.source] < rank[e.target]
  }

  lemma {:induction false} WalkRaisesRank(edges: seq<Edge>, rank: map<NodeId, nat>, p: seq<NodeId>)
    requires Ranked(edges, rank) && Walk(edges, p) && |p| > 1
    ensures p[0] in rank && p[|p| - 1] in rank && rank[p[0]] < rank[p[|p| - 1]]
  {
    assert Link(edges, p[0], p[1]);
    if |p| > 2 {
      var q := p[1..];
      forall i | 0 <= i < |q| - 1 ensures Link(edges, q[i], q[i + 1]) {
        assert Link(edges, p[i + 1], p[i + 2]);
      }
      WalkRaisesRank(edges, rank, q);
    }
  }

  lemma RankedHasNoCycle(edges: seq<Edge>, rank: map<NodeId, nat>)
    requires Ranked(edges, rank)
    ensures !HasCycle(edges)
  {
    if p :| Walk(edges, p) && |p| > 1 && p[0] == p[|p| - 1] {
      WalkRaisesRank(edges, rank, p);
    }
  }

  ghost predicate HasLinkFrom(edges: seq<Edge>, sources: set<NodeId>, v: NodeId) {
    exists u :: u in sources && Link(edges, u, v)
  }

  /** Walks backwards inside a set whose every member has a predecessor in it. */
  lemma {:induction false} BackWalk(edges: seq<Edge>, stuck: set<NodeId>, v: NodeId, n: nat) returns (p: seq<NodeId>)
    requires v in stuck
    requires forall w :: w in stuck ==> HasLinkFrom(edges, stuck, w)
    ensures |p| == n + 1 && Elements(p) <= stuck && Walk(edges, p)
  {
    hide Link;
    if n == 0 {
      p := [v];
    } else {
      var q := BackWalk(edges, stuck, v, n - 1);
      assert q[0] in Elements(q) && HasLinkFrom(edges, stuck, q[0]);
      var w :| w in stuck && Link(edges, w, q[0]);
      p := [w] + q;
      assert Elements(p) <= stuck by {
        forall x | x in p ensures x in stuck { assert x == w || x in Elements(q); }
      }
      forall i | 0 <= i < |p| - 1 ensures Link(edges, p[i], p[i + 1]) {
        if i > 0 {
          assert Link(edges, q[i - 1], q[i]);
        }
      }
    }
  }

  /** A nonempty set in which every node has a predecessor contains a cycle. */
  lemma StuckSetHasCycle(edges: seq<Edge>, stuck: set<NodeId>)
    requires stuck != {}
    requires forall w :: w in stuck ==> HasLinkFrom(edges, stuck, w)
    ensures HasCycle(edges)
  {
    var v :| v in stuck;
    var p := BackWalk(edges, stuck, v, |stuck|);
    Pigeonhole(p, stuck);
    var i, j :| 0 <= i < j < |p| && p[i] == p[j];
    ClosedSectionIsCycle(edges, p, i, j);
  }

  lemma ClosedSectionIsCycle(edges: seq<Edge>, p: seq<NodeId>, i: nat, j: nat)
    requires Walk(edges, p) && i < j < |p| && p[i] == p[j]
    ensures HasCycle(edges)
  {
    var q := p[i..j + 1];
    forall k | 0 <= k < |q| - 1 ensures Link(edges, q[k], q[k + 1]) {
      assert Link(edges, p[i + k], p[i + k + 1]);
    }
    assert Walk(edges, q);
  }

  ghost predicate RankedWithin(edges: seq<Edge>, nodes: set<NodeId>, rank: map<NodeId, nat>, low: nat) {
    && rank.Keys == nodes
    && (forall v :: v in nodes ==> rank[v] >= low)
    && forall e :: e in edges && e.source in nodes && e.target in nodes ==> rank[e.source] < rank[e.target]
  }

  lemma {:induction false} RankNodes(edges: seq<Edge>, nodes: set<NodeId>, low: nat) returns (rank: map<NodeId, nat>)
    requires !HasCycle(edges)
    ensures RankedWithin(edges, nodes, rank, low)
    decreases nodes
  {
    if nodes == {} {
      rank := map[];
    } else {
      if forall w :: w in nodes ==> HasLinkFrom(edges, nodes, w) {
        StuckSetHasCycle(edges, nodes);
      }
      var w :| w in nodes && !HasLinkFrom(edges, nodes, w);
      var rest := RankNodes(edges, nodes - {w}, low + 1);
      rank := rest[w := low];
      forall e | e in edges && e.source in nodes && e.target in nodes
        ensures rank[e.source] < rank[e.target]
      {
        assert Link(edges, e.source, e.target);
      }
    }
  }

  /** A graph has a topological rank exactly when it has no cycle. */
  lemma RankExistsIffAcyclic(edges: seq<Edge>)
    ensures (exists rank :: Ranked(edges, rank)) <==> !HasCycle(edges)
  {
    if rank :| Ranked(edges, rank) {
      RankedHasNoCycle(edges, rank);
    }
    if !HasCycle(edges) {
      var ends := (set e | e in edges :: e.source) + (set e | e in edges :: e.target);
      var rank := RankNodes(edges, ends, 0);
      assert Ranked(edges, rank);
    }
  }

  lemma FewerEdgesStayAcyclic(edges: seq<Edge>, fewer: seq<Edge>)
    requires !HasCycle(edges) && forall e :: e in fewer ==> e in edges
    ensures !HasCycle(fewer)
  {
    RankExistsIffAcyclic(edges);
    var rank :| Ranked(edges, rank);
    assert Ranked(fewer, rank);
    RankExistsIffAcyclic(fewer);
  }
}
