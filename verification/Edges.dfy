/** Typed edges and the rule that says when one of them is satisfied. */
module Edges {
  import opened Prelude
  import opened Nodes

  datatype EdgeKind = DependsOn | Triggers | Blocks | DataFlow | Conditional

  datatype EdgeCondition = Always | OnSuccess | OnFailure | OnOutput(key: string)

  datatype Edge = Edge(
    source: NodeId,
    target: NodeId,
    kind: EdgeKind,
    condition: Option<EdgeCondition>,
    weight: int)
  {
    /** The explicit condition, or the default of the edge's kind. */
    function EffectiveCondition(): EdgeCondition {
      match condition
      case Some(c) => c
      case None => if kind.DependsOn? || kind.DataFlow? then OnSuccess else Always
    }
  }

  /** Whether an edge is satisfied when its source is in state `pred`. */
  predicate Satisfied(pred: NodeState, edge: Edge) {
    match edge.EffectiveCondition()
    case Always => pred.IsTerminal()
    case OnSuccess => pred.IsSuccess()
    case OnFailure => pred == Failed
    case OnOutput(_) => false
  }

  /** Every edge joins two nodes of the state map. */
  ghost predicate Covers(edges: seq<Edge>, s: States) {
    forall e :: e in edges ==> e.source in s && e.target in s
  }

  /** An edge that success of its source satisfies. */
  predicate SuccessSatisfies(edge: Edge) {
    Satisfied(Succeeded, edge)
  }
}
