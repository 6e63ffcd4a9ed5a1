/** The meaning of an execution: the state every node ends in, as one recursive
    function of the graph, independent of any schedule. */
module Outcomes {
  import opened Nodes
  import opened Edges
  import opened Topology
  import opened Propagation

  /** How a node's own work ends, were it to run. */
  type Outcome = NodeId -> NodeState

  ghost predicate Decided(out: Outcome) {
    forall v :: out(v) == Succeeded || out(v) == Failed
  }

  ghost predicate Setting(edges: seq<Edge>, rank: map<NodeId, nat>, init: States, out: Outcome) {
    Covers(edges, init) && Ranked(edges, rank) && Decided(out)
  }

  ghost function RankOf(rank: map<NodeId, nat>, v: NodeId): nat {
    if v in rank then rank[v] else 0
  }

  /** The state in which node `v` ends: a node that does not start pending keeps its
      state; a node with a finished source that cannot satisfy its edge is skipped; a
      node whose edges are all satisfied ends as its work does; any other node waits
      forever (for a source that itself never finishes). */
  ghost function Final(edges: seq<Edge>, rank: map<NodeId, nat>, init: States, out: Outcome, v: NodeId): NodeState
    requires Covers(edges, init) && Ranked(edges, rank) && v in init
    decreases RankOf(rank, v)
  {
    if !init[v].Pending? then init[v]
    else if exists e :: e in edges && e.target == v && Final(edges, rank, init, out, e.source).IsTerminal()
                        && !Satisfied(Final(edges, rank, init, out, e.source), e) then Skipped
    else if forall e :: e in edges && e.target == v ==> Satisfied(Final(edges, rank, init, out, e.source), e)
      then out(v)
    else Pending
  }

  /** Every node that has finished in `s` has finished as `Final` says, and no node
      that started outside `Pending` has moved. */
  ghost predicate Agrees(edges: seq<Edge>, rank: map<NodeId, nat>, init: States, out: Outcome, s: States)
    requires Covers(edges, init) && Ranked(edges, rank)
  {
    && s.Keys == init.Keys
    && (forall v :: v in s && s[v].IsTerminal() ==> s[v] == Final(edges, rank, init, out, v))
    && forall v :: v in s && !init[v].Pending? ==> s[v] == init[v]
  }

  ghost predicate StartsClean(init: States) {
    forall v :: v in init ==> init[v].Pending? || init[v].IsTerminal()
  }

  lemma InitialAgrees(edges: seq<Edge>, rank: map<NodeId, nat>, init: States, out: Outcome)
    requires Setting(edges, rank, init, out)
    ensures Agrees(edges, rank, init, out, init)
  {
  }

  /** An admitted node is destined to end as its work does. */
  lemma AdmittedEndsAsItsWork(
      edges: seq<Edge>, rank: map<NodeId, nat>, init: States, out: Outcome, s: States, v: NodeId)
    requires Setting(edges, rank, init, out) && Agrees(edges, rank, init, out, s)
    requires v in s && init[v].Pending? && Admitted(edges, s, v)
    ensures Final(edges, rank, init, out, v) == out(v)
  {
    forall e | e in edges && e.target == v
      ensures Satisfied(Final(edges, rank, init, out, e.source), e)
    {
      assert s[e.source].IsTerminal();
    }
  }

  /** An impossible node is destined to be skipped. */
  lemma ImpossibleEndsSkipped(
      edges: seq<Edge>, rank: map<NodeId, nat>, init: States, out: Outcome, s: States, v: NodeId)
    requires Setting(edges, rank, init, out) && Agrees(edges, rank, init, out, s)
    requires v in s && Impossible(edges, s, v)
    ensures Final(edges, rank, init, out, v) == Skipped
  {
    var e :| e in edges && e.target == v && Refuses(s, e);
    assert s[e.source] == Final(edges, rank, init, out, e.source);
  }

  lemma SkipRoundAgrees(edges: seq<Edge>, rank: map<NodeId, nat>, init: States, out: Outcome, s: States)
    requires Setting(edges, rank, init, out) && Agrees(edges, rank, init, out, s)
    ensures Agrees(edges, rank, init, out, SkipRound(edges, s))
  {
    forall v | v in s && Impossible(edges, s, v)
      ensures Final(edges, rank, init, out, v) == Skipped
    {
      ImpossibleEndsSkipped(edges, rank, init, out, s, v);
    }
  }

  lemma {:induction false} SkipAllAgrees(
      edges: seq<Edge>, rank: map<NodeId, nat>, init: States, out: Outcome, s: States)
    requires Setting(edges, rank, init, out) && Agrees(edges, rank, init, out, s)
    ensures Agrees(edges, rank, init, out, SkipAll(edges, s))
    decreases Pendings(s)
  {
    if SkipRound(edges, s) != s {
      SkippedRoundShrinks(edges, s);
      SkipRoundAgrees(edges, rank, init, out, s);
      SkipAllAgrees(edges, rank, init, out, SkipRound(edges, s));
    }
  }

  /** Finishing an admitted node as its work ends, and propagating skips, keeps agreement. */
  lemma CompletionAgrees(edges: seq<Edge>, rank: map<NodeId, nat>, init: States, out: Outcome, s: States, v: NodeId)
    requires Setting(edges, rank, init, out) && Agrees(edges, rank, init, out, s)
    requires v in s && init[v].Pending? && Admitted(edges, s, v)
    ensures Agrees(edges, rank, init, out, SkipAll(edges, s[v := out(v)]))
  {
    AdmittedEndsAsItsWork(edges, rank, init, out, s, v);
    SkipAllAgrees(edges, rank, init, out, s[v := out(v)]);
  }

  /** No progress is possible in `s`: nothing can be skipped, nothing is ready, and
      only nodes that started so are ready or running. */
  ghost predicate Quiescent(edges: seq<Edge>, init: States, s: States)
    requires Covers(edges, init) && s.Keys == init.Keys
  {
    && (forall v :: v in s ==> !Impossible(edges, s, v) && !IsReady(edges, s, v))
    && forall v :: v in s && !s[v].IsTerminal() && !s[v].Pending? ==> s[v] == init[v]
  }

  /** Where no progress is possible, every node is in its final state. */
  lemma {:induction false} QuiescentIsFinal(
      edges: seq<Edge>, rank: map<NodeId, nat>, init: States, out: Outcome, s: States, v: NodeId)
    requires Setting(edges, rank, init, out) && Agrees(edges, rank, init, out, s)
    requires Quiescent(edges, init, s) && v in s
    ensures s[v] == Final(edges, rank, init, out, v)
    decreases RankOf(rank, v)
  {
    if s[v].Pending? && init[v].Pending? {
      forall e | e in edges && e.target == v
        ensures s[e.source] == Final(edges, rank, init, out, e.source)
      {
        QuiescentIsFinal(edges, rank, init, out, s, e.source);
      }
      assert !Impossible(edges, s, v) && !IsReady(edges, s, v);
      forall e | e in edges && e.target == v
        ensures !(s[e.source].IsTerminal() && !Satisfied(s[e.source], e))
      {
        assert !Refuses(s, e);
      }
      var e :| e in edges && e.target == v && !Satisfied(s[e.source], e);
      assert !Satisfied(Final(edges, rank, init, out, e.source), e);
    }
  }

  /** A clean start always ends with every node finished. */
  lemma {:induction false} CleanStartFinishes(
      edges: seq<Edge>, rank: map<NodeId, nat>, init: States, out: Outcome, v: NodeId)
    requires Setting(edges, rank, init, out) && StartsClean(init) && v in init
    ensures Final(edges, rank, init, out, v).IsTerminal()
    decreases RankOf(rank, v)
  {
    forall e | e in edges && e.target == v
      ensures Final(edges, rank, init, out, e.source).IsTerminal()
    {
      CleanStartFinishes(edges, rank, init, out, e.source);
    }
  }

  /** Every node finishes exactly when no node starts ready or running. */
  lemma AllFinishIffCleanStart(edges: seq<Edge>, rank: map<NodeId, nat>, init: States, out: Outcome)
    requires Setting(edges, rank, init, out)
    ensures (forall v :: v in init ==> Final(edges, rank, init, out, v).IsTerminal()) <==> StartsClean(init)
  {
    if StartsClean(init) {
      forall v | v in init ensures Final(edges, rank, init, out, v).IsTerminal() {
        CleanStartFinishes(edges, rank, init, out, v);
      }
    } else {
      var v :| v in init && !(init[v].Pending? || init[v].IsTerminal());
      assert Final(edges, rank, init, out, v) == init[v];
    }
  }

  /** From an all-pending start the meaning is the plain one: a node ends as its work
      does when all its incoming edges are satisfied by the final states of their
      sources, and is skipped otherwise. */
  lemma FinalFromPendingStart(edges: seq<Edge>, rank: map<NodeId, nat>, init: States, out: Outcome, v: NodeId)
    requires Setting(edges, rank, init, out) && v in init
    requires forall u :: u in init ==> init[u].Pending?
    ensures Final(edges, rank, init, out, v) ==
            if forall e :: e in edges && e.target == v ==> Satisfied(Final(edges, rank, init, out, e.source), e)
            then out(v) else Skipped
  {
    forall e | e in edges && e.target == v
      ensures Final(edges, rank, init, out, e.source).IsTerminal()
    {
      CleanStartFinishes(edges, rank, init, out, e.source);
    }
  }

  /** The meaning does not depend on the topological rank used to compute it. */
  lemma {:induction false} RankIsIrrelevant(
      edges: seq<Edge>, rank: map<NodeId, nat>, other: map<NodeId, nat>, init: States, out: Outcome,
      v: NodeId)
    requires Setting(edges, rank, init, out) && Setting(edges, other, init, out) && v in init
    ensures Final(edges, rank, init, out, v) == Final(edges, other, init, out, v)
    decreases RankOf(rank, v)
  {
    forall e | e in edges && e.target == v
      ensures Final(edges, rank, init, out, e.source) == Final(edges, other, init, out, e.source)
    {
      RankIsIrrelevant(edges, rank, other, init, out, e.source);
    }
  }

  // ----- Admission is stable -----

  /** Finished nodes of `s` are finished in the same state in `t`. */
  ghost predicate KeepsFinished(s: States, t: States) {
    s.Keys == t.Keys && forall v :: v in s && s[v].IsTerminal() ==> t[v] == s[v]
  }

  lemma AdmissionIsStable(edges: seq<Edge>, s: States, t: States, v: NodeId)
    requires Covers(edges, s) && KeepsFinished(s, t) && Admitted(edges, s, v)
    ensures Admitted(edges, t, v)
  {
    forall e | e in edges && e.target == v ensures Satisfied(t[e.source], e) {
      assert s[e.source].IsTerminal();
    }
  }

  lemma SkipAllKeepsFinished(edges: seq<Edge>, s: States)
    requires Covers(edges, s)
    ensures KeepsFinished(s, SkipAll(edges, s))
    ensures forall v :: v in s && !s[v].Pending? ==> SkipAll(edges, s)[v] == s[v]
    ensures forall v :: v in s && s[v].Pending? ==> SkipAll(edges, s)[v] == Pending || SkipAll(edges, s)[v] == Skipped
  {
    SkipAllIsFixpoint(edges, s);
  }
}
