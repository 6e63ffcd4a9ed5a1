/** Depth of a node: the length of its longest chain of predecessors. Without a
    concurrency limit the planner puts each node in the wave of its depth. */
module WaveDepth {
  import opened Prelude
  import opened Nodes
  import opened Edges
  import opened Topology
  import opened Propagation
  import opened Outcomes
  import opened Planning

  function Max(a: nat, b: nat): nat {
    if a < b then b else a
  }

  /** One more than the greatest depth among the sources of the first `k` edges that
      lead into `v`, or zero without any. */
  ghost function DepthUpTo(edges: seq<Edge>, rank: map<NodeId, nat>, v: NodeId, k: nat): nat
    requires Ranked(edges, rank) && k <= |edges|
    decreases RankOf(rank, v), k
  {
    if k == 0 then 0
    else
      var rest := DepthUpTo(edges, rank, v, k - 1);
      var e := edges[k - 1];
      assert e in edges;
      if e.target == v then Max(rest, DepthUpTo(edges, rank, e.source, |edges|) + 1) else rest
  }

  ghost function Depth(edges: seq<Edge>, rank: map<NodeId, nat>, v: NodeId): nat
    requires Ranked(edges, rank)
  {
    DepthUpTo(edges, rank, v, |edges|)
  }

  /** Some walk along `n` edges ends in `v`. */
  ghost predicate ChainTo(edges: seq<Edge>, v: NodeId, n: nat) {
    exists p :: Walk(edges, p) && |p| == n + 1 && p[n] == v
  }

  /** The longest walk that ends in `v` follows `n` edges. */
  ghost predicate LongestChain(edges: seq<Edge>, v: NodeId, n: nat) {
    ChainTo(edges, v, n) && forall k: nat :: ChainTo(edges, v, k) ==> k <= n
  }

  // ----- Depth is the longest chain -----

  lemma {:induction false} DepthBounds(edges: seq<Edge>, rank: map<NodeId, nat>, v: NodeId, k: nat)
    requires Ranked(edges, rank) && k <= |edges|
    ensures forall i :: 0 <= i < k && edges[i].target == v ==>
            Depth(edges, rank, edges[i].source) < DepthUpTo(edges, rank, v, k)
    ensures DepthUpTo(edges, rank, v, k) > 0 ==>
              exists i :: 0 <= i < k && edges[i].target == v
                && DepthUpTo(edges, rank, v, k) == Depth(edges, rank, edges[i].source) + 1
  {
    if k > 0 {
      DepthBounds(edges, rank, v, k - 1);
    }
  }

  /** Depth exceeds the depth of every direct predecessor, and one of them by exactly one. */
  lemma DepthRecurrence(edges: seq<Edge>, rank: map<NodeId, nat>, v: NodeId)
    requires Ranked(edges, rank)
    ensures forall e :: e in edges && e.target == v ==> Depth(edges, rank, e.source) < Depth(edges, rank, v)
    ensures Depth(edges, rank, v) > 0 ==>
              exists e :: e in edges && e.target == v && Depth(edges, rank, v) == Depth(edges, rank, e.source) + 1
  {
    DepthBounds(edges, rank, v, |edges|);
    forall e | e in edges && e.target == v ensures Depth(edges, rank, e.source) < Depth(edges, rank, v) {
      var i :| 0 <= i < |edges| && edges[i] == e;
    }
    if Depth(edges, rank, v) > 0 {
      var i :| 0 <= i < |edges| && edges[i].target == v
        && Depth(edges, rank, v) == Depth(edges, rank, edges[i].source) + 1;
      assert edges[i] in edges;
    }
  }

  lemma {:induction false} DeepestWalk(edges: seq<Edge>, rank: map<NodeId, nat>, v: NodeId) returns (p: seq<NodeId>)
    requires Ranked(edges, rank)
    ensures Walk(edges, p) && |p| == Depth(edges, rank, v) + 1 && p[|p| - 1] == v
    decreases Depth(edges, rank, v)
  {
    DepthRecurrence(edges, rank, v);
    if Depth(edges, rank, v) == 0 {
      p := [v];
    } else {
      var e :| e in edges && e.target == v && Depth(edges, rank, v) == Depth(edges, rank, e.source) + 1;
      var q := DeepestWalk(edges, rank, e.source);
      p := q + [v];
      forall i | 0 <= i < |p| - 1 ensures Link(edges, p[i], p[i + 1]) {
        if i < |q| - 1 {
          assert Link(edges, q[i], q[i + 1]);
        }
      }
    }
  }

  lemma {:induction false} WalkWithinDepth(edges: seq<Edge>, rank: map<NodeId, nat>, p: seq<NodeId>)
    requires Ranked(edges, rank) && Walk(edges, p)
    ensures |p| <= Depth(edges, rank, p[|p| - 1]) + 1
  {
    if |p| > 1 {
      var q := p[..|p| - 1];
      forall i | 0 <= i < |q| - 1 ensures Link(edges, q[i], q[i + 1]) {
        assert Link(edges, p[i], p[i + 1]);
      }
      WalkWithinDepth(edges, rank, q);
      assert Link(edges, p[|p| - 2], p[|p| - 2 + 1]);
      DepthRecurrence(edges, rank, p[|p| - 1]);
    }
  }

  /** The depth of a node is the number of edges on the longest walk that ends there. */
  lemma DepthIsLongestChain(edges: seq<Edge>, rank: map<NodeId, nat>, v: NodeId)
    requires Ranked(edges, rank)
    ensures forall n: nat :: LongestChain(edges, v, n) <==> n == Depth(edges, rank, v)
  {
    var d := Depth(edges, rank, v);
    var p := DeepestWalk(edges, rank, v);
    assert ChainTo(edges, v, d);
    forall k: nat | ChainTo(edges, v, k) ensures k <= d {
      var q :| Walk(edges, q) && |q| == k + 1 && q[k] == v;
      WalkWithinDepth(edges, rank, q);
    }
    assert LongestChain(edges, v, d);
  }

  // ----- Optimality of the unlimited plan -----

  /** Everything shallower than `d` has succeeded, the rest is pending. */
  ghost predicate DoneBelow(edges: seq<Edge>, rank: map<NodeId, nat>, s: States, d: nat)
    requires Ranked(edges, rank)
  {
    forall v :: v in s ==> s[v] == if Depth(edges, rank, v) < d then Succeeded else Pending
  }

  lemma ReadyAtDepth(edges: seq<Edge>, rank: map<NodeId, nat>, s: States, d: nat)
    requires Ranked(edges, rank) && Covers(edges, s) && DoneBelow(edges, rank, s, d)
    requires forall e :: e in edges ==> SuccessSatisfies(e)
    ensures forall v :: v in s ==> (IsReady(edges, s, v) <==> Depth(edges, rank, v) == d)
  {
    forall v | v in s ensures IsReady(edges, s, v) <==> Depth(edges, rank, v) == d {
      DepthRecurrence(edges, rank, v);
    }
  }

  lemma WaveTakesDepth(edges: seq<Edge>, rank: map<NodeId, nat>, s: States, d: nat, wave: seq<NodeId>)
    requires Ranked(edges, rank) && Covers(edges, s) && DoneBelow(edges, rank, s, d)
    requires forall e :: e in edges ==> SuccessSatisfies(e)
    requires IsWave(edges, s, None, wave)
    ensures forall v :: v in wave <==> v in s && Depth(edges, rank, v) == d
  {
    ReadyAtDepth(edges, rank, s, d);
  }

  lemma CompletedDepth(edges: seq<Edge>, rank: map<NodeId, nat>, s: States, d: nat, wave: seq<NodeId>, t: States)
    requires Ranked(edges, rank) && Covers(edges, s) && DoneBelow(edges, rank, s, d)
    requires forall v :: v in wave <==> v in s && Depth(edges, rank, v) == d
    requires t.Keys == s.Keys && WaveCompleted(edges, s, wave, t)
    requires forall v :: v in s ==> t[v] != Skipped
    ensures DoneBelow(edges, rank, t, d + 1)
  {
  }

  lemma NothingDeeper(edges: seq<Edge>, rank: map<NodeId, nat>, s: States, d: nat)
    requires Ranked(edges, rank) && Covers(edges, s)
    requires forall v :: v in s ==> Depth(edges, rank, v) != d
    ensures forall v :: v in s ==> Depth(edges, rank, v) < d
  {
    forall v | v in s ensures Depth(edges, rank, v) < d {
      if Depth(edges, rank, v) >= d {
        var u := DepthsAreDense(edges, rank, s, v, d);
      }
    }
  }

  /** Where success satisfies every edge and every finished node succeeded, nothing is skipped. */
  lemma {:induction false} NothingSkipped(edges: seq<Edge>, s: States, wave: seq<NodeId>)
    requires Covers(edges, s) && forall v :: v in wave ==> v in s
    requires forall e :: e in edges ==> SuccessSatisfies(e)
    requires forall v :: v in s ==> s[v].Pending? || s[v].Succeeded?
    ensures forall v :: v in s ==> AfterWave(edges, s, wave)[v].Pending? || AfterWave(edges, s, wave)[v].Succeeded?
    decreases |wave|
  {
    if wave != [] {
      var t := s[wave[0] := Succeeded];
      assert SkipRound(edges, t) == t;
      NothingSkipped(edges, SkipAll(edges, t), wave[1..]);
    }
  }

  /** `plan` lists the nodes of depth `d`, then those of depth `d + 1`, and so on to the deepest. */
  ghost predicate LayersFrom(
      edges: seq<Edge>, rank: map<NodeId, nat>, nodes: set<NodeId>, d: nat, plan: seq<seq<NodeId>>)
    requires Ranked(edges, rank)
  {
    && (forall i :: 0 <= i < |plan| ==> plan[i] != [])
    && (forall i, v :: 0 <= i < |plan| ==> (v in plan[i] <==> v in nodes && Depth(edges, rank, v) == d + i))
    && forall v :: v in nodes ==> Depth(edges, rank, v) < d + |plan|
  }

  lemma LayersStep(
      edges: seq<Edge>, rank: map<NodeId, nat>, nodes: set<NodeId>, d: nat, wave: seq<NodeId>,
      rest: seq<seq<NodeId>>)
    requires Ranked(edges, rank) && LayersFrom(edges, rank, nodes, d + 1, rest)
    requires wave != [] && forall v :: v in wave <==> v in nodes && Depth(edges, rank, v) == d
    ensures LayersFrom(edges, rank, nodes, d, [wave] + rest)
  {
    var plan := [wave] + rest;
    forall i, v | 0 <= i < |plan| ensures v in plan[i] <==> v in nodes && Depth(edges, rank, v) == d + i {
      if i > 0 {
        assert plan[i] == rest[i - 1];
      }
    }
  }

  /** If some node is at least as deep as `d`, some node has exactly that depth. */
  lemma {:induction false} DepthsAreDense(edges: seq<Edge>, rank: map<NodeId, nat>, s: States, v: NodeId, d: nat)
    returns (u: NodeId)
    requires Ranked(edges, rank) && Covers(edges, s) && v in s && Depth(edges, rank, v) >= d
    ensures u in s && Depth(edges, rank, u) == d
    decreases Depth(edges, rank, v)
  {
    if Depth(edges, rank, v) == d {
      u := v;
    } else {
      DepthRecurrence(edges, rank, v);
      var e :| e in edges && e.target == v && Depth(edges, rank, v) == Depth(edges, rank, e.source) + 1;
      u := DepthsAreDense(edges, rank, s, e.source, d);
    }
  }

  lemma UnlimitedWave(edges: seq<Edge>, rank: map<NodeId, nat>, s: States, d: nat, wave: seq<NodeId>)
    requires Ranked(edges, rank) && Covers(edges, s) && DoneBelow(edges, rank, s, d)
    requires (forall e :: e in edges ==> SuccessSatisfies(e)) && IsWave(edges, s, None, wave)
    ensures forall v :: v in wave <==> v in s && Depth(edges, rank, v) == d
    ensures DoneBelow(edges, rank, AfterWave(edges, s, wave), if wave == [] then d else d + 1)
  {
    WaveTakesDepth(edges, rank, s, d, wave);
    if wave != [] {
      NothingSkipped(edges, s, wave);
      AfterWaveCompletes(edges, s, wave);
      CompletedDepth(edges, rank, s, d, wave, AfterWave(edges, s, wave));
    }
  }

  lemma UnlimitedStep(
      m: map<NodeId, Node>, edges: seq<Edge>, rank: map<NodeId, nat>, s: States, order: seq<NodeId>, d: nat)
      returns (wave: seq<NodeId>, t: States)
    requires Plannable(m, edges, s, order) && Ranked(edges, rank) && DoneBelow(edges, rank, s, d)
    requires forall e :: e in edges ==> SuccessSatisfies(e)
    ensures forall v :: v in wave <==> v in s && Depth(edges, rank, v) == d
    ensures wave == [] ==> PlanFrom(m, edges, s, order, None) == []
    ensures wave != [] ==>
              t.Keys == s.Keys && PlanFrom(m, edges, s, order, None) == [wave] + PlanFrom(m, edges, t, order, None)
    ensures wave != [] ==> Pendings(t) < Pendings(s) && DoneBelow(edges, rank, t, d + 1)
  {
    wave, t := PlanUnfolds(m, edges, s, order, None);
    UnlimitedWave(edges, rank, s, d, wave);
  }

  lemma NoLayerLeft(edges: seq<Edge>, rank: map<NodeId, nat>, s: States, d: nat, wave: seq<NodeId>)
    requires Ranked(edges, rank) && Covers(edges, s) && wave == []
    requires forall v :: v in wave <==> v in s && Depth(edges, rank, v) == d
    ensures LayersFrom(edges, rank, s.Keys, d, [])
  {
    hide Depth, Ranked;
    assert forall v :: v in s ==> v !in wave;
    NothingDeeper(edges, rank, s, d);
  }

  lemma {:induction false} UnlimitedPlanIsLayered(
      m: map<NodeId, Node>, edges: seq<Edge>, rank: map<NodeId, nat>, s: States, order: seq<NodeId>, d: nat)
    requires Plannable(m, edges, s, order) && Ranked(edges, rank) && DoneBelow(edges, rank, s, d)
    requires forall e :: e in edges ==> SuccessSatisfies(e)
    ensures LayersFrom(edges, rank, s.Keys, d, PlanFrom(m, edges, s, order, None))
    decreases Pendings(s)
  {
    hide PlanFrom, LayersFrom, DoneBelow, Depth, Ranked, SuccessSatisfies;
    var wave, t := UnlimitedStep(m, edges, rank, s, order, d);
    if wave == [] {
      NoLayerLeft(edges, rank, s, d, wave);
    } else {
      UnlimitedPlanIsLayered(m, edges, rank, t, order, d + 1);
      LayersStep(edges, rank, s.Keys, d, wave, PlanFrom(m, edges, t, order, None));
    }
  }

  /** `plan` puts each node in the wave numbered by its longest chain of predecessors,
      and has no more waves than the longest chain of all has nodes. */
  ghost predicate OptimalWaves(edges: seq<Edge>, nodes: set<NodeId>, plan: seq<seq<NodeId>>) {
    && (forall i: nat, v :: i < |plan| ==> (v in plan[i] <==> v in nodes && LongestChain(edges, v, i)))
    && (forall i :: 0 <= i < |plan| ==> plan[i] != [])
    && forall v, n: nat :: v in nodes && LongestChain(edges, v, n) ==> n < |plan|
  }

  lemma LayersAreOptimal(edges: seq<Edge>, rank: map<NodeId, nat>, nodes: set<NodeId>, plan: seq<seq<NodeId>>)
    requires Ranked(edges, rank) && LayersFrom(edges, rank, nodes, 0, plan)
    ensures OptimalWaves(edges, nodes, plan)
  {
    forall i: nat, v | i < |plan| ensures v in plan[i] <==> v in nodes && LongestChain(edges, v, i) {
      DepthIsLongestChain(edges, rank, v);
      assert v in plan[i] <==> v in nodes && Depth(edges, rank, v) == 0 + i;
    }
    forall v, n: nat | v in nodes && LongestChain(edges, v, n) ensures n < |plan| {
      DepthIsLongestChain(edges, rank, v);
    }
  }

  /** Wave optimality: with no limit, all nodes pending and success satisfying every
      edge, each node is in the wave numbered by its longest chain of predecessors, and
      there are no more waves than the longest chain has nodes. */
  lemma UnlimitedPlanIsOptimal(m: map<NodeId, Node>, edges: seq<Edge>, s: States, order: seq<NodeId>)
    requires Plannable(m, edges, s, order) && !HasCycle(edges)
    requires forall v :: v in s ==> s[v].Pending?
    requires forall e :: e in edges ==> SuccessSatisfies(e)
    ensures OptimalWaves(edges, s.Keys, PlanFrom(m, edges, s, order, None))
  {
    RankExistsIffAcyclic(edges);
    var rank :| Ranked(edges, rank);
    UnlimitedPlanIsLayered(m, edges, rank, s, order, 0);
    LayersAreOptimal(edges, rank, s.Keys, PlanFrom(m, edges, s, order, None));
  }

  lemma NoMoreWaves(edges: seq<Edge>, nodes: set<NodeId>, p: seq<seq<NodeId>>, q: seq<seq<NodeId>>)
    requires OptimalWaves(edges, nodes, p) && OptimalWaves(edges, nodes, q)
    ensures |p| <= |q|
  {
    if p != [] {
      var i := |p| - 1;
      var v := p[i][0];
      assert v in p[i];
      assert LongestChain(edges, v, i);
    }
  }

  /** Two plans that are optimal for the same graph have the same waves, up to the
      order inside a wave. */
  lemma OptimalWavesAgree(edges: seq<Edge>, nodes: set<NodeId>, p: seq<seq<NodeId>>, q: seq<seq<NodeId>>)
    requires OptimalWaves(edges, nodes, p) && OptimalWaves(edges, nodes, q)
    ensures |p| == |q| && forall i :: 0 <= i < |p| ==> Elements(p[i]) == Elements(q[i])
  {
    NoMoreWaves(edges, nodes, p, q);
    NoMoreWaves(edges, nodes, q, p);
    forall i: nat | i < |p| && i < |q| ensures Elements(p[i]) == Elements(q[i]) {
      forall v ensures v in p[i] <==> v in q[i] {
        assert v in p[i] <==> v in nodes && LongestChain(edges, v, i);
      }
    }
  }
}
