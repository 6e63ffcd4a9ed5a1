/** What the script of a node's handler makes of its calls: how many there are, and how the
    node ends. */
module Scripts {
  import opened Nodes
  import opened ExecutorProtocol

  type Script = (NodeId, nat) -> Attempt

  /** Attempt `j` is the first that does not fail. */
  ghost predicate IsDecisive(script: Script, v: NodeId, j: nat) {
    !script(v, j).Fails? && forall i: nat :: i < j ==> script(v, i).Fails?
  }

  /** With `extra` attempts after the first: the first attempt that does not fail is the last
      one made and decides, and without one all are made and the node fails. */
  ghost predicate AsScripted(script: Script, v: NodeId, extra: nat, end: NodeState, calls: nat) {
    && (forall j: nat :: j <= extra && IsDecisive(script, v, j) ==>
          calls == j + 1 && end == if script(v, j).Completes? then Succeeded else Failed)
    && ((forall j: nat :: j <= extra ==> script(v, j).Fails?) ==> calls == extra + 1 && end == Failed)
  }

  lemma {:induction false} ScriptDecidesFrom(c: Config, v: NodeId, k: nat)
    requires k <= c.retries(v) && forall i: nat :: i < k ==> c.script(v, i).Fails?
    ensures AsScripted(c.script, v, c.retries(v), c.WorkFrom(v, k), c.CallsFrom(v, k))
    decreases c.retries(v) - k
  {
    if c.script(v, k).Fails? {
      if k < c.retries(v) {
        ScriptDecidesFrom(c, v, k + 1);
      }
    } else {
      forall j: nat | j <= c.retries(v) && IsDecisive(c.script, v, j) ensures j == k {
        assert j < k ==> c.script(v, j).Fails?;
      }
    }
  }

  /** The work of a node, and the calls it takes, are those of its script. */
  lemma ScriptDecides(c: Config, v: NodeId)
    ensures AsScripted(c.script, v, c.retries(v), c.Work(v), c.Calls(v))
  {
    ScriptDecidesFrom(c, v, 0);
  }

  /** What an execution made of a node that it found as `node`: it called its handler at most
      once more than the task's retries, never where the node was not pending or was skipped,
      and where it worked to its end exactly as often as the script says, with the end that
      follows. A node without a task has no retries. */
  ghost predicate CalledAsScripted(script: Script, node: Node, v: NodeId, end: NodeState, calls: nat) {
    var extra := match node.taskSpec case Some(task) => task.maxRetries case None => 0;
    && calls <= extra + 1
    && (node.state != Pending || end == Skipped ==> calls == 0)
    && (node.state == Pending && (end == Succeeded || end == Failed) ==> AsScripted(script, v, extra, end, calls))
  }
}
