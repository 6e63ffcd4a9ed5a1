/** What the documentation says of ready nodes, and exactly when the code does it. */
module DocumentedReadiness {
  import opened Prelude
  import opened Nodes
  import opened Edges
  import opened Propagation
  import opened Outcomes

  // ----- The nodes that completing one returns -----

  /** Every node that is ready once `id` has ended in state `x` was not ready before. */
  ghost predicate ReturnsNewlyReady(edges: seq<Edge>, s: States, id: NodeId, x: NodeState)
    requires Covers(edges, s) && id in s
  {
    forall v :: v in s && IsReady(edges, SkipAll(edges, s[id := x]), v) ==> !IsReady(edges, s, v)
  }

  /** A change of `id` to state `x` does not by itself stop `v` from being ready. */
  predicate LeavesReady(edges: seq<Edge>, id: NodeId, x: NodeState, v: NodeId) {
    && (v == id ==> x.Pending?)
    && forall e :: e in edges && e.source == id && e.target == v ==> Satisfied(x, e)
  }

  /** A ready node whose edges the change of `id` still satisfies is not skipped. */
  lemma LeftReadyIsNotSkipped(edges: seq<Edge>, s: States, id: NodeId, x: NodeState, v: NodeId)
    requires Covers(edges, s) && id in s && v in s && IsReady(edges, s, v)
    requires LeavesReady(edges, id, SkipAll(edges, s[id := x])[id], v)
    ensures SkipAll(edges, s[id := x])[v].Pending?
  {
    var t := s[id := x];
    SkipSetIsLeastClosed(edges, t);
    SkipAllIsFixpoint(edges, t);
    var k := SkipSet(edges, t) - {v};
    forall u | u in t ensures !Impossible(edges, WithSkipped(t, k), u) {
      if u != v && Impossible(edges, WithSkipped(t, k), u) {
        ImpossibleIsMonotone(edges, t, k, SkipSet(edges, t), u);
      }
    }
    assert ClosedUnderSkips(edges, t, k);
  }

  /** Ending `id` leaves a ready node ready exactly when the edges between them, if any, are
      satisfied by the state in which `id` is left. */
  lemma StaysReadyIff(edges: seq<Edge>, s: States, id: NodeId, x: NodeState, v: NodeId)
    requires Covers(edges, s) && id in s && v in s && IsReady(edges, s, v)
    ensures IsReady(edges, SkipAll(edges, s[id := x]), v) <==>
            LeavesReady(edges, id, SkipAll(edges, s[id := x])[id], v)
  {
    var t := s[id := x];
    SkipAllKeepsFinished(edges, t);
    if LeavesReady(edges, id, SkipAll(edges, t)[id], v) {
      LeftReadyIsNotSkipped(edges, s, id, x, v);
      forall e | e in edges && e.target == v && e.source != id ensures Satisfied(SkipAll(edges, t)[e.source], e) {
        assert s[e.source].IsTerminal();
      }
    }
  }

  /** The nodes returned are all newly ready exactly when no node was ready before that the
      end of `id` leaves ready. */
  lemma NewlyReadyIff(edges: seq<Edge>, s: States, id: NodeId, x: NodeState)
    requires Covers(edges, s) && id in s
    ensures ReturnsNewlyReady(edges, s, id, x) <==>
            forall v :: v in s && IsReady(edges, s, v) ==> !LeavesReady(edges, id, SkipAll(edges, s[id := x])[id], v)
  {
    forall v | v in s && IsReady(edges, s, v)
      ensures IsReady(edges, SkipAll(edges, s[id := x]), v) <==>
              LeavesReady(edges, id, SkipAll(edges, s[id := x])[id], v)
    {
      StaysReadyIff(edges, s, id, x, v);
    }
  }

  /** For a node that had not finished: exactly when no other node was ready before. */
  lemma NewlyReadyIffNoOtherReady(edges: seq<Edge>, s: States, id: NodeId, x: NodeState)
    requires Covers(edges, s) && id in s && !s[id].IsTerminal() && x.IsTerminal()
    ensures ReturnsNewlyReady(edges, s, id, x) <==> forall v :: v in s && v != id ==> !IsReady(edges, s, v)
  {
    NewlyReadyIff(edges, s, id, x);
    SkipAllKeepsFinished(edges, s[id := x]);
    forall v | v in s && IsReady(edges, s, v) ensures LeavesReady(edges, id, x, v) <==> v != id {
      forall e | e in edges && e.target == v ensures e.source != id {
        assert Satisfied(s[e.source], e);
      }
    }
  }

  /** Two nodes without an edge: completing one returns the other, which was ready all along. */
  lemma ReadyNodeIsReturnedAgain()
    ensures var s := map[0 := Running, 1 := Pending];
            IsReady([], s, 1) && IsReady([], SkipAll([], s[0 := Succeeded]), 1)
              && !ReturnsNewlyReady([], s, 0, Succeeded)
  {
    var s := map[0 := Running, 1 := Pending];
    assert IsReady([], s, 1);
    SkipAllKeepsFinished([], s[0 := Succeeded]);
    StaysReadyIff([], s, 0, Succeeded, 1);
  }

  // ----- Readiness in terms of successful dependencies -----

  /** The documented reading: pending, and the sources of all edges have succeeded. */
  ghost predicate DependenciesSucceeded(edges: seq<Edge>, s: States, v: NodeId)
    requires Covers(edges, s) && v in s
  {
    s[v].Pending? && forall e :: e in edges && e.target == v ==> s[e.source].Succeeded?
  }

  ghost predicate ReadsAsDocumented(edges: seq<Edge>, v: NodeId) {
    forall s: States :: Covers(edges, s) && v in s ==> (IsReady(edges, s, v) <==> DependenciesSucceeded(edges, s, v))
  }

  /** Success satisfies every edge into `v`, and every source has one that nothing else does. */
  ghost predicate NeedsSuccess(edges: seq<Edge>, v: NodeId) {
    && (forall e :: e in edges && e.target == v ==> SuccessSatisfies(e))
    && forall e :: e in edges && e.target == v ==> HasSuccessEdge(edges, e.source, v)
  }

  ghost predicate HasSuccessEdge(edges: seq<Edge>, u: NodeId, v: NodeId) {
    exists e :: e in edges && e.source == u && e.target == v && e.EffectiveCondition().OnSuccess?
  }

  ghost predicate SelfLinked(edges: seq<Edge>, v: NodeId) {
    exists e :: e in edges && e.source == v && e.target == v
  }

  /** A state of all ends of edges in which `v` waits and everything else has succeeded,
      but for `u`, which is in state `x`. */
  function Witness(edges: seq<Edge>, v: NodeId, u: NodeId, x: NodeState): (s: States)
    ensures Covers(edges, s) && v in s && s[v] == Pending
    ensures forall w :: w in s && w != v ==> s[w] == if w == u then x else Succeeded
  {
    var nodes := (set e | e in edges :: e.source) + (set e | e in edges :: e.target) + {v};
    map w | w in nodes :: if w == v then Pending else if w == u then x else Succeeded
  }

  /** The documented reading holds in every state exactly when success satisfies each edge
      into the node and each source has an edge there that only success satisfies. */
  lemma DocumentedReadingIff(edges: seq<Edge>, v: NodeId)
    ensures ReadsAsDocumented(edges, v) <==> NeedsSuccess(edges, v) || SelfLinked(edges, v)
  {
    if !SelfLinked(edges, v) {
      forall e | e in edges && e.target == v && ReadsAsDocumented(edges, v)
        ensures SuccessSatisfies(e) && HasSuccessEdge(edges, e.source, v)
      {
        SourceNeedsSuccess(edges, v, e);
      }
    }
    if NeedsSuccess(edges, v) || SelfLinked(edges, v) {
      forall s: States | Covers(edges, s) && v in s
        ensures IsReady(edges, s, v) <==> DependenciesSucceeded(edges, s, v)
      {
        NeededSuccessIsRead(edges, s, v);
      }
    }
  }

  lemma SourceNeedsSuccess(edges: seq<Edge>, v: NodeId, e: Edge)
    requires ReadsAsDocumented(edges, v) && !SelfLinked(edges, v) && e in edges && e.target == v
    ensures SuccessSatisfies(e) && HasSuccessEdge(edges, e.source, v)
  {
    var s := Witness(edges, v, v, Pending);
    assert DependenciesSucceeded(edges, s, v);
    assert IsReady(edges, s, v);
    var f := Witness(edges, v, e.source, Failed);
    assert !DependenciesSucceeded(edges, f, v);
    assert !IsReady(edges, f, v);
    var b :| b in edges && b.target == v && !Satisfied(f[b.source], b);
    assert Satisfied(s[b.source], b);
  }

  lemma NeededSuccessIsRead(edges: seq<Edge>, s: States, v: NodeId)
    requires NeedsSuccess(edges, v) || SelfLinked(edges, v)
    requires Covers(edges, s) && v in s
    ensures IsReady(edges, s, v) <==> DependenciesSucceeded(edges, s, v)
  {
    if s[v].Pending? && SelfLinked(edges, v) {
      var e :| e in edges && e.source == v && e.target == v;
      assert !Satisfied(s[e.source], e);
    } else if IsReady(edges, s, v) {
      forall e | e in edges && e.target == v ensures s[e.source].Succeeded? {
        var b :| b in edges && b.source == e.source && b.target == v && b.EffectiveCondition().OnSuccess?;
        assert Satisfied(s[b.source], b);
      }
    }
  }

  /** A node behind a failed one, by a failure edge and by a completion edge, is ready. */
  lemma FailureMakesReady()
    ensures var s := map[0 := Failed, 1 := Pending];
            && IsReady([Edge(0, 1, DependsOn, Some(OnFailure), 0)], s, 1)
            && IsReady([Edge(0, 1, Triggers, None, 0)], s, 1)
            && !DependenciesSucceeded([Edge(0, 1, DependsOn, Some(OnFailure), 0)], s, 1)
            && !DependenciesSucceeded([Edge(0, 1, Triggers, None, 0)], s, 1)
  {
    var a, b := Edge(0, 1, DependsOn, Some(OnFailure), 0), Edge(0, 1, Triggers, None, 0);
    assert a in [a] && b in [b];
  }
}
