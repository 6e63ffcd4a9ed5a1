/** What edges mean for the node they lead to, case by case: which kinds and conditions let
    it go on, and which make it be skipped. */
module EdgeRules {
  import opened Prelude
  import opened Nodes
  import opened Edges
  import opened Propagation
  import opened Outcomes

  predicate HasEnded(x: NodeState) {
    x == Succeeded || x == Failed || x == Skipped || x == Cancelled
  }

  predicate WantsSuccess(e: Edge) {
    e.condition == Some(OnSuccess) || (e.condition == None && (e.kind == DependsOn || e.kind == DataFlow))
  }

  predicate WantsAnyEnd(e: Edge) {
    || e.condition == Some(Always)
    || (e.condition == None && (e.kind == Triggers || e.kind == Blocks || e.kind == Conditional))
  }

  /** The edge lets its target go on when its source is in state `x`; one with an output
      condition never does. */
  predicate Meets(e: Edge, x: NodeState) {
    || (WantsSuccess(e) && x == Succeeded)
    || (e.condition == Some(OnFailure) && x == Failed)
    || (WantsAnyEnd(e) && HasEnded(x))
  }

  lemma SatisfiedMeets(e: Edge, x: NodeState)
    ensures Satisfied(x, e) <==> Meets(e, x)
    ensures x.IsTerminal() <==> HasEnded(x)
  {
  }

  // ----- A node with one incoming edge -----

  /** A pending node behind one edge, for every kind and condition of the edge and every
      state of its source: when it is ready, and when it is skipped or left alone. */
  lemma SingleEdgeRule(edges: seq<Edge>, s: States, e: Edge)
    requires Covers(edges, s) && e in edges && e.target in s && s[e.target] == Pending
    requires forall d :: d in edges && d.target == e.target ==> d == e
    ensures var x, ready, after := s[e.source], IsReady(edges, s, e.target), SkipAll(edges, s)[e.target];
            && (e.condition == Some(OnSuccess) ==> (ready <==> x == Succeeded))
            && (e.condition == Some(OnFailure) ==> (ready <==> x == Failed))
            && (e.condition == Some(Always) ==>
                  (ready <==> x == Succeeded || x == Failed || x == Skipped || x == Cancelled))
            && (e.condition.Some? && e.condition.value.OnOutput? ==> !ready)
            && (e.condition == None && (e.kind == DependsOn || e.kind == DataFlow) ==> (ready <==> x == Succeeded))
            && (e.condition == None && (e.kind == Triggers || e.kind == Blocks || e.kind == Conditional) ==>
                  (ready <==> x == Succeeded || x == Failed || x == Skipped || x == Cancelled))
            && (ready || x == Ready || x == Running ==> after == Pending)
            && (!ready && (x == Succeeded || x == Failed || x == Skipped || x == Cancelled) ==> after == Skipped)
  {
    hide SkipAll;
    SkippedIff(edges, s, e.target);
    SkipAllKeepsFinished(edges, s);
    SatisfiedMeets(e, s[e.source]);
  }

  // ----- Any number of edges -----

  /** A node is ready when it is pending and every edge into it lets it go on. */
  lemma ReadyIff(edges: seq<Edge>, s: States, v: NodeId)
    requires Covers(edges, s) && v in s
    ensures IsReady(edges, s, v) <==>
            s[v] == Pending && forall e :: e in edges && e.target == v ==> Meets(e, s[e.source])
  {
    forall e | e in edges && e.target == v ensures Satisfied(s[e.source], e) <==> Meets(e, s[e.source]) {
      SatisfiedMeets(e, s[e.source]);
    }
  }

  /** A pending node is skipped exactly when some edge into it does not let it go on though
      its source has ended, perhaps by being skipped itself. */
  lemma {:induction false} SkippedIff(edges: seq<Edge>, s: States, v: NodeId)
    requires Covers(edges, s) && v in s && s[v] == Pending
    ensures var r := SkipAll(edges, s);
            && (r[v] == Pending || r[v] == Skipped)
            && (r[v] == Skipped <==>
                exists e :: e in edges && e.target == v && HasEnded(r[e.source]) && !Meets(e, r[e.source]))
    decreases Pendings(s)
  {
    hide Meets, HasEnded;
    var r, t := SkipAll(edges, s), SkipRound(edges, s);
    SkipAllKeepsFinished(edges, s);
    SkipAllIsFixpoint(edges, s);
    if e :| e in edges && e.target == v && HasEnded(r[e.source]) && !Meets(e, r[e.source]) {
      SatisfiedMeets(e, r[e.source]);
      assert Refuses(r, e);
    }
    if r[v] == Skipped {
      if Impossible(edges, s, v) {
        var e :| e in edges && e.target == v && Refuses(s, e);
        SatisfiedMeets(e, r[e.source]);
      } else {
        SkippedRoundShrinks(edges, s);
        SkippedIff(edges, t, v);
      }
    }
  }
}
