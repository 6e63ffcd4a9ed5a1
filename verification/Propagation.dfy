/** Readiness of nodes and propagation of skips, on state maps.

    These functions specify `ExecutionGraph.ReadyNodes`, `SkipImpossibleNodes`
    and `MarkComplete`; the lemmas say what skip propagation means. */
module Propagation {
  import opened Nodes
  import opened Edges

  /** Every incoming edge of `v` is satisfied. */
  predicate Admitted(edges: seq<Edge>, s: States, v: NodeId)
    requires Covers(edges, s)
  {
    forall e :: e in edges && e.target == v ==> Satisfied(s[e.source], e)
  }

  predicate IsReady(edges: seq<Edge>, s: States, v: NodeId)
    requires Covers(edges, s) && v in s
  {
    s[v].Pending? && Admitted(edges, s, v)
  }

  /** The source of `e` has finished in a state that does not satisfy `e`. */
  predicate Refuses(s: States, e: Edge)
    requires e.source in s
  {
    s[e.source].IsTerminal() && !Satisfied(s[e.source], e)
  }

  predicate Impossible(edges: seq<Edge>, s: States, v: NodeId)
    requires Covers(edges, s) && v in s
  {
    s[v].Pending? && exists e :: e in edges && e.target == v && Refuses(s, e)
  }

  /** One pass of skip propagation: every impossible node is skipped at once. */
  function SkipRound(edges: seq<Edge>, s: States): (r: States)
    requires Covers(edges, s)
    ensures r.Keys == s.Keys
  {
    map v | v in s :: if Impossible(edges, s, v) then Skipped else s[v]
  }

  /** Skip propagation run to its fixpoint. */
  function SkipAll(edges: seq<Edge>, s: States): (r: States)
    requires Covers(edges, s)
    ensures r.Keys == s.Keys
    decreases Pendings(s)
  {
    var r := SkipRound(edges, s);
    if r == s then s else (SkippedRoundShrinks(edges, s); SkipAll(edges, r))
  }

  lemma SkippedRoundShrinks(edges: seq<Edge>, s: States)
    requires Covers(edges, s) && SkipRound(edges, s) != s
    ensures Pendings(SkipRound(edges, s)) < Pendings(s)
  {
    var r := SkipRound(edges, s);
    var v :| v in s && r[v] != s[v];
    assert v in Pendings(s) && v !in Pendings(r);
  }

  /** The pending nodes that propagation skips. */
  function SkipSet(edges: seq<Edge>, s: States): (k: set<NodeId>)
    requires Covers(edges, s)
  {
    set v | v in s && s[v].Pending? && SkipAll(edges, s)[v].Skipped?
  }

  /** The states after skipping a set of nodes. */
  function WithSkipped(s: States, k: set<NodeId>): (r: States)
    ensures r.Keys == s.Keys
  {
    map v | v in s :: if v in k then Skipped else s[v]
  }

  /** `k` is a set of pending nodes that already holds every node which
      skipping the members of `k` would make impossible. */
  ghost predicate ClosedUnderSkips(edges: seq<Edge>, s: States, k: set<NodeId>)
    requires Covers(edges, s)
  {
    && k <= Pendings(s)
    && forall v :: v in s ==> !Impossible(edges, WithSkipped(s, k), v)
  }

  // ----- What propagation computes -----

  /** Skipping a pending node only ever adds terminal sources, so it keeps impossibility. */
  lemma ImpossibleIsMonotone(edges: seq<Edge>, s: States, j: set<NodeId>, k: set<NodeId>, v: NodeId)
    requires Covers(edges, s) && v in s
    requires j <= k <= Pendings(s) && v !in k
    requires Impossible(edges, WithSkipped(s, j), v)
    ensures Impossible(edges, WithSkipped(s, k), v)
  {
    var e :| e in edges && e.target == v && Refuses(WithSkipped(s, j), e);
    assert Refuses(WithSkipped(s, k), e);
  }

  /** One pass stays inside every closed set. */
  lemma RoundStaysInside(edges: seq<Edge>, s: States, j: set<NodeId>, k: set<NodeId>)
    requires Covers(edges, s) && ClosedUnderSkips(edges, s, k) && j <= k
    ensures var i := Pendings(WithSkipped(s, j)) - Pendings(SkipRound(edges, WithSkipped(s, j)));
            && j + i <= k
            && SkipRound(edges, WithSkipped(s, j)) == WithSkipped(s, j + i)
  {
    var t := WithSkipped(s, j);
    var i := Pendings(t) - Pendings(SkipRound(edges, t));
    forall v | v in i ensures v in k {
      if v !in k {
        ImpossibleIsMonotone(edges, s, j, k, v);
      }
    }
  }

  lemma {:induction false} SkipAllStaysInside(edges: seq<Edge>, s: States, j: set<NodeId>, k: set<NodeId>)
    requires Covers(edges, s) && ClosedUnderSkips(edges, s, k) && j <= k
    ensures forall v :: v in s && SkipAll(edges, WithSkipped(s, j))[v].Skipped? ==> v in k || s[v].Skipped?
    decreases Pendings(WithSkipped(s, j))
  {
    var t := WithSkipped(s, j);
    if SkipRound(edges, t) != t {
      RoundStaysInside(edges, s, j, k);
      SkippedRoundShrinks(edges, t);
      SkipAllStaysInside(edges, s, j + (Pendings(t) - Pendings(SkipRound(edges, t))), k);
    }
  }

  /** Propagation changes nothing but pending nodes, which it skips, and leaves none impossible. */
  lemma {:induction false} SkipAllIsFixpoint(edges: seq<Edge>, s: States)
    requires Covers(edges, s)
    ensures SkipAll(edges, s) == WithSkipped(s, SkipSet(edges, s))
    ensures forall v :: v in s ==> !Impossible(edges, SkipAll(edges, s), v)
    decreases Pendings(s)
  {
    var r := SkipRound(edges, s);
    if r == s {
      forall v | v in s ensures !Impossible(edges, s, v) {
        assert r[v] == s[v];
      }
    } else {
      SkippedRoundShrinks(edges, s);
      SkipAllIsFixpoint(edges, r);
    }
  }

  /** Propagation skips the least set of pending nodes that is closed under
      "some finished source cannot satisfy an edge into the node". */
  lemma SkipSetIsLeastClosed(edges: seq<Edge>, s: States)
    requires Covers(edges, s)
    ensures ClosedUnderSkips(edges, s, SkipSet(edges, s))
    ensures forall k :: ClosedUnderSkips(edges, s, k) ==> SkipSet(edges, s) <= k
  {
    SkipAllIsFixpoint(edges, s);
    forall k | ClosedUnderSkips(edges, s, k) ensures SkipSet(edges, s) <= k {
      assert WithSkipped(s, {}) == s;
      SkipAllStaysInside(edges, s, {}, k);
    }
  }

  lemma SkipAllIsIdempotent(edges: seq<Edge>, s: States)
    requires Covers(edges, s)
    ensures SkipAll(edges, SkipAll(edges, s)) == SkipAll(edges, s)
  {
    SkipAllIsFixpoint(edges, s);
    var r := SkipAll(edges, s);
    assert SkipRound(edges, r) == r;
  }

  /** A node whose incoming edges are all `Always` is never skipped by propagation. */
  lemma AlwaysOnlyIsNeverSkipped(edges: seq<Edge>, s: States, v: NodeId)
    requires Covers(edges, s) && v in s
    requires forall e :: e in edges && e.target == v ==> e.EffectiveCondition().Always?
    ensures SkipAll(edges, s)[v] == s[v]
  {
    var k := Pendings(s) - {v};
    forall u | u in s ensures !Impossible(edges, WithSkipped(s, k), u) {
      if u != v && s[u].Pending? {
        assert WithSkipped(s, k)[u].Skipped?;
      }
    }
    assert ClosedUnderSkips(edges, s, k);
    SkipSetIsLeastClosed(edges, s);
    SkipAllIsFixpoint(edges, s);
    assert v !in SkipSet(edges, s);
  }

  // ----- Independence of the visiting order -----

  /** A propagation that visits nodes one at a time, in the order of `visits`,
      skipping each node it finds impossible. */
  function SkipInOrder(edges: seq<Edge>, s: States, visits: seq<NodeId>): (r: States)
    requires Covers(edges, s) && forall v :: v in visits ==> v in s
    ensures r.Keys == s.Keys
    decreases |visits|
  {
    if visits == [] then s
    else SkipInOrder(edges, if Impossible(edges, s, visits[0]) then s[visits[0] := Skipped] else s, visits[1..])
  }

  lemma {:induction false} SkipInOrderStaysInside(
      edges: seq<Edge>, s: States, j: set<NodeId>, k: set<NodeId>, visits: seq<NodeId>)
      returns (i: set<NodeId>)
    requires Covers(edges, s) && ClosedUnderSkips(edges, s, k) && j <= k
    requires forall v :: v in visits ==> v in s
    ensures i <= k && SkipInOrder(edges, WithSkipped(s, j), visits) == WithSkipped(s, i)
    decreases |visits|
  {
    i := j;
    if visits != [] {
      var t := WithSkipped(s, j);
      var v := visits[0];
      if Impossible(edges, t, v) {
        if v !in k {
          ImpossibleIsMonotone(edges, s, j, k, v);
        }
        assert t[v := Skipped] == WithSkipped(s, j + {v});
        i := SkipInOrderStaysInside(edges, s, j + {v}, k, visits[1..]);
      } else {
        i := SkipInOrderStaysInside(edges, s, j, k, visits[1..]);
      }
    }
  }

  /** Whatever order nodes are visited in, a propagation that ends with no
      impossible node ends in the same states. */
  lemma VisitingOrderIsIrrelevant(edges: seq<Edge>, s: States, visits: seq<NodeId>)
    requires Covers(edges, s) && forall v :: v in visits ==> v in s
    requires forall v :: v in s ==> !Impossible(edges, SkipInOrder(edges, s, visits), v)
    ensures SkipInOrder(edges, s, visits) == SkipAll(edges, s)
  {
    SkipSetIsLeastClosed(edges, s);
    SkipAllIsFixpoint(edges, s);
    assert WithSkipped(s, {}) == s;
    var i := SkipInOrderStaysInside(edges, s, {}, SkipSet(edges, s), visits);
    assert i <= Pendings(s);
    assert ClosedUnderSkips(edges, s, i);
  }
}
