/** Graph nodes: identity, lifecycle state and scheduling attributes. */
module Nodes {
  import opened Prelude

  type NodeId = nat

  datatype NodeKind = Task | Gate | Fork | Join | Checkpoint | Noop

  datatype NodeState = Pending | Ready | Running | Succeeded | Failed | Skipped | Cancelled {

    predicate IsTerminal() {
      Succeeded? || Failed? || Skipped? || Cancelled?
    }

    predicate IsSuccess() {
      Succeeded?
    }
  }

  datatype TaskSpec = TaskSpec(taskType: string, params: string, timeout: Option<nat>, maxRetries: nat)

  /** Durations are whole ticks, with TICKS_PER_SECOND of them in a second. */
  datatype Node = Node(
    id: NodeId,
    kind: NodeKind,
    name: string,
    state: NodeState,
    taskSpec: Option<TaskSpec>,
    dependencies: set<NodeId>,
    metadata: string,
    estimatedDuration: Option<nat>,
    actualDuration: Option<nat>,
    priority: int)
  {
    /** The number of extra attempts after a failed one; a node without a task has none. */
    function MaxRetries(): nat {
      match taskSpec
      case None => 0
      case Some(spec) => spec.maxRetries
    }
  }

  const TICKS_PER_SECOND: nat := 1_000_000_000

  type States = map<NodeId, NodeState>

  function Pendings(s: States): set<NodeId> {
    set v | v in s && s[v].Pending?
  }
}
