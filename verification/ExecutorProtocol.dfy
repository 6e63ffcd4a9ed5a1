/** The graph executor as a state machine. A driver plans waves, spawns a task for every
    node of a wave and joins them; tasks acquire a permit, call the node's handler until it
    succeeds or its retries are used up, and record the result. Every interleaving of their
    steps, of cancellation, of the global timeout and of the caller going away is a run. */
module ExecutorProtocol {
  import opened Prelude
  import opened Nodes
  import opened Edges
  import opened Topology
  import opened Propagation
  import opened Outcomes
  import opened Planning

  /** How one call of a handler ends; an attempt that times out fails. */
  datatype Attempt = Completes | Fails | Panics

  /** What is fixed during a run: the graph, how each call of each handler would end, the
      retries of each node, the concurrency limit and whether there is a global timeout. */
  datatype Config = Config(
    edges: seq<Edge>,
    init: States,
    script: (NodeId, nat) -> Attempt,
    retries: NodeId -> nat,
    limit: Option<nat>,
    timed: bool)
  {
    ghost predicate Proper() {
      Covers(edges, init) && !HasCycle(edges)
    }

    /** The end of a node's work when attempt `k` is next. */
    ghost function WorkFrom(v: NodeId, k: nat): (x: NodeState)
      requires k <= retries(v)
      ensures x == Succeeded || x == Failed
      decreases retries(v) - k
    {
      match script(v, k)
      case Completes => Succeeded
      case Panics => Failed
      case Fails => if k < retries(v) then WorkFrom(v, k + 1) else Failed
    }

    /** The number of handler calls made in all when attempt `k` is next. */
    ghost function CallsFrom(v: NodeId, k: nat): (n: nat)
      requires k <= retries(v)
      ensures k < n <= retries(v) + 1
      decreases retries(v) - k
    {
      if script(v, k).Fails? && k < retries(v) then CallsFrom(v, k + 1) else k + 1
    }

    ghost function Work(v: NodeId): NodeState {
      WorkFrom(v, 0)
    }

    ghost function Calls(v: NodeId): (n: nat)
      ensures 0 < n <= retries(v) + 1
    {
      CallsFrom(v, 0)
    }
  }

  ghost function WorkOf(c: Config): (out: Outcome)
    ensures Decided(out)
  {
    (v: NodeId) => c.Work(v)
  }

  datatype Task =
    | Waiting                     // spawned, without a permit
    | Attempting(k: nat)          // about to look at the token before attempt k
    | Polled(k: nat)              // has seen the token uncancelled, about to call the handler
    | Calling(k: nat)             // the call of attempt k is in flight
    | Deciding(end: NodeState)    // out of the retry loop, about to record the end
    | Panicked                    // the handler panicked; nothing is recorded yet
    | Recorded                    // returned, to be joined
  {
    predicate HoldsPermit() {
      Attempting? || Polled? || Calling? || Deciding?
    }
  }

  datatype Interruption = TokenCancelled | TimedOut | NoConcurrency | CallerGone

  datatype Progress = Progress(completed: nat, total: nat, running: nat, failed: nat, skipped: nat, waves: nat)

  datatype Ending = Unsupported | Finished(progress: Progress) | Stopped(why: Interruption)

  datatype Phase =
    | Entering
    | Planning
    | Checking(wave: seq<NodeId>)
    | Marking(wave: seq<NodeId>)
    | Spawning(rest: seq<NodeId>)
    | Joining
    | Leaving
    | Closing(progress: Progress)
    | Stopping(why: Interruption)
    | Ended(ending: Ending)
  {
    predicate IsActive() {
      Planning? || Checking? || Marking? || Spawning? || Joining? || Leaving?
    }

    /** All nodes left unfinished have been cancelled. */
    predicate IsSwept() {
      Ended? && !ending.Unsupported?
    }
  }

  datatype State = State(
    phase: Phase,
    s: States,
    tasks: map<NodeId, Task>,
    calls: map<NodeId, nat>,
    cancelled: bool,
    waves: nat)

  datatype Action =
    | Enter | Plan(wave: seq<NodeId>) | Check | Mark | Spawn | Join(v: NodeId) | EndWave | Complete
    | Interrupt | TimeOut | Drop | Abort(v: NodeId) | Sweep
    | Acquire(v: NodeId) | Poll(v: NodeId) | Invoke(v: NodeId) | Answer(v: NodeId)
    | Notice(v: NodeId) | Record(v: NodeId)
    | Cancel

  ghost function Start(c: Config): State {
    State(Entering, c.init, map[], map v | v in c.init :: 0, false, 0)
  }

  function Holders(tasks: map<NodeId, Task>): set<NodeId> {
    set v | v in tasks && tasks[v].HoldsPermit()
  }

  function Where(s: States, p: NodeState -> bool): set<NodeId> {
    set v | v in s && p(s[v])
  }

  predicate IsDone(x: NodeState) { x.IsTerminal() }

  predicate IsRunning(x: NodeState) { x.Running? }

  predicate IsFailed(x: NodeState) { x.Failed? }

  predicate IsSkipped(x: NodeState) { x.Skipped? }

  function ProgressOf(s: States, waves: nat): Progress {
    Progress(|Where(s, IsDone)|, |s|, |Where(s, IsRunning)|, |Where(s, IsFailed)|, |Where(s, IsSkipped)|, waves)
  }

  /** Cancels every node that has not finished. */
  function CancelRemaining(s: States): (r: States)
    ensures r.Keys == s.Keys
  {
    map v | v in s :: if s[v].IsTerminal() then s[v] else Cancelled
  }

  ghost predicate HasOutputEdge(edges: seq<Edge>) {
    exists e :: e in edges && e.EffectiveCondition().OnOutput?
  }

  // ----- Steps -----

  ghost predicate Enabled(c: Config, st: State, a: Action)
    requires Covers(c.edges, st.s)
  {
    match a
    case Enter => st.phase.Entering?
    case Plan(wave) => st.phase.Planning? && IsWave(c.edges, SkipAll(c.edges, st.s), c.limit, wave)
    case Check => st.phase.Checking?
    case Mark => st.phase.Marking? && forall v :: v in st.phase.wave ==> v in st.s
    case Spawn => st.phase.Spawning? && forall v :: v in st.phase.rest ==> v in st.s
    case Join(v) => st.phase.Joining? && v in st.tasks && v in st.s && (st.tasks[v].Recorded? || st.tasks[v].Panicked?)
    case EndWave => st.phase.Joining? && st.tasks == map[]
    case Complete => st.phase.Leaving?
    case Interrupt => st.cancelled && st.phase.IsActive()
    case TimeOut => c.timed && st.phase.IsActive()
    case Drop => st.phase.IsActive() || (st.phase.Stopping? && st.phase.why != CallerGone)
    case Abort(v) => v in st.tasks && (st.phase.Stopping? || st.phase.Ended?)
    case Sweep => st.phase.Closing? || (st.phase.Stopping? && (st.tasks == map[] || st.phase.why == CallerGone))
    case Acquire(v) => v in st.tasks && st.tasks[v].Waiting? && (c.limit.Some? ==> |Holders(st.tasks)| < c.limit.value)
    case Poll(v) => v in st.tasks && st.tasks[v].Attempting? && !st.cancelled
    case Invoke(v) => v in st.tasks && v in st.calls && st.tasks[v].Polled?
    case Answer(v) => v in st.tasks && st.tasks[v].Calling?
    case Notice(v) => v in st.tasks && (st.tasks[v].Attempting? || st.tasks[v].Calling?) && st.cancelled
    case Record(v) => v in st.tasks && v in st.s && st.tasks[v].Deciding?
    case Cancel => !st.cancelled
  }

  /** The task after call `k` of its handler has ended. */
  function AfterCall(c: Config, v: NodeId, k: nat): Task {
    match c.script(v, k)
    case Completes => Deciding(Succeeded)
    case Panics => Panicked
    case Fails => if k < c.retries(v) then Attempting(k + 1) else Deciding(Failed)
  }

  /** Ends node `v` and propagates skips. */
  function MarkedComplete(edges: seq<Edge>, s: States, v: NodeId, end: NodeState): (r: States)
    requires Covers(edges, s) && v in s
    ensures r.Keys == s.Keys
  {
    SkipAll(edges, s[v := end])
  }

  function AllReady(s: States, wave: seq<NodeId>): (r: States)
    ensures r.Keys == s.Keys
  {
    map v | v in s :: if v in wave && s[v].Pending? then Ready else s[v]
  }

  ghost function Apply(c: Config, st: State, a: Action): (r: State)
    requires Covers(c.edges, st.s) && Enabled(c, st, a)
    ensures r.s.Keys == st.s.Keys
  {
    match a
    case Enter =>
      st.(phase := if HasOutputEdge(c.edges) then Ended(Unsupported)
                   else if st.cancelled then Stopping(TokenCancelled)
                   else if c.limit == Some(0) then Stopping(NoConcurrency) else Planning)
    case Plan(wave) => st.(s := SkipAll(c.edges, st.s), phase := if wave == [] then Leaving else Checking(wave))
    case Check => st.(phase := if st.cancelled then Stopping(TokenCancelled) else Marking(st.phase.wave))
    case Mark => st.(s := AllReady(st.s, st.phase.wave), phase := Spawning(st.phase.wave))
    case Spawn =>
      if st.phase.rest == [] then st.(phase := Joining)
      else
        var v := st.phase.rest[0];
        st.(s := st.s[v := Running], tasks := st.tasks[v := Waiting], phase := Spawning(st.phase.rest[1..]))
    case Join(v) =>
      st.(s := if st.tasks[v].Panicked? then MarkedComplete(c.edges, st.s, v, Failed) else st.s,
          tasks := st.tasks - {v})
    case EndWave => st.(phase := Planning, waves := st.waves + 1)
    case Complete =>
      st.(phase := if st.cancelled then Stopping(TokenCancelled) else Closing(ProgressOf(st.s, st.waves)))
    case Interrupt => st.(phase := Stopping(TokenCancelled))
    case TimeOut => st.(phase := Stopping(TimedOut))
    case Drop => st.(phase := Stopping(CallerGone))
    case Abort(v) => st.(tasks := st.tasks - {v})
    case Sweep =>
      st.(s := CancelRemaining(st.s),
          phase := Ended(if st.phase.Closing? then Finished(st.phase.progress) else Stopped(st.phase.why)))
    case Acquire(v) => st.(tasks := st.tasks[v := Attempting(0)])
    case Poll(v) => st.(tasks := st.tasks[v := Polled(st.tasks[v].k)])
    case Invoke(v) => st.(tasks := st.tasks[v := Calling(st.tasks[v].k)], calls := st.calls[v := st.calls[v] + 1])
    case Answer(v) => st.(tasks := st.tasks[v := AfterCall(c, v, st.tasks[v].k)])
    case Notice(v) => st.(tasks := st.tasks[v := Deciding(Cancelled)])
    case Record(v) =>
      st.(s := if st.s[v].Cancelled? then st.s else MarkedComplete(c.edges, st.s, v, st.tasks[v].end),
          tasks := st.tasks[v := Recorded])
    case Cancel => st.(cancelled := true)
  }

  // ----- The invariant, node by node -----

  datatype Stage = Working | Halting | Swept

  function StageOf(phase: Phase): Stage {
    if phase.IsSwept() then Swept else if phase.Stopping? then Halting else Working
  }

  /** The first `k` attempts of `v` fail, so whatever follows decides. */
  ghost predicate Undecided(c: Config, v: NodeId, k: nat) {
    k <= c.retries(v) && c.Work(v) == c.WorkFrom(v, k) && c.Calls(v) == c.CallsFrom(v, k)
  }

  ghost predicate TaskOk(c: Config, v: NodeId, task: Task, calls: nat, cancelled: bool) {
    match task
    case Waiting => calls == 0
    case Attempting(k) => Undecided(c, v, k) && calls == k
    case Polled(k) => Undecided(c, v, k) && calls == k
    case Calling(k) => Undecided(c, v, k) && calls == k + 1
    case Deciding(end) =>
      if end.Cancelled? then cancelled && calls <= c.retries(v) + 1
      else end == c.Work(v) && calls == c.Calls(v)
    case Panicked => c.Work(v) == Failed && calls == c.Calls(v)
    case Recorded => false
  }

  /** A node without a task in progress. */
  ghost predicate RestOk(c: Config, v: NodeId, x: NodeState, calls: nat, cancelled: bool, stage: Stage) {
    match x
    case Pending => calls == 0 && !stage.Swept?
    case Ready => calls == 0 && !stage.Swept?
    case Running => calls <= c.retries(v) + 1 && stage.Halting?
    case Skipped => calls == 0
    case Cancelled => calls <= c.retries(v) + 1 && (cancelled || stage.Swept?)
    case _ => x == c.Work(v) && calls == c.Calls(v)
  }

  ghost predicate NodeOk(
      c: Config, v: NodeId, x: NodeState, task: Option<Task>, calls: nat, cancelled: bool, stage: Stage)
    requires v in c.init
  {
    if !c.init[v].Pending? then
      task.None? && calls == 0 && x == if stage.Swept? && !c.init[v].IsTerminal() then Cancelled else c.init[v]
    else if task.Some? && !task.value.Recorded? then
      TaskOk(c, v, task.value, calls, cancelled) && x == if stage.Swept? then Cancelled else Running
    else
      RestOk(c, v, x, calls, cancelled, stage) && (task.Some? ==> x.IsTerminal())
  }

  function TaskAt(tasks: map<NodeId, Task>, v: NodeId): Option<Task> {
    if v in tasks then Some(tasks[v]) else None
  }

  ghost predicate Shaped(c: Config, st: State) {
    c.Proper() && st.s.Keys == c.init.Keys && st.calls.Keys == c.init.Keys && st.tasks.Keys <= c.init.Keys
  }

  ghost predicate NodesOk(c: Config, st: State)
    requires Shaped(c, st)
  {
    forall v :: v in c.init ==>
      NodeOk(c, v, st.s[v], TaskAt(st.tasks, v), st.calls[v], st.cancelled, StageOf(st.phase))
  }

  /** Handlers have been and will be called for admitted nodes only. */
  ghost predicate OnlyAdmitted(c: Config, st: State)
    requires Shaped(c, st)
  {
    forall v :: v in c.init && (v in st.tasks || st.calls[v] > 0) ==> Admitted(c.edges, st.s, v)
  }

  /** The nodes that planning moved to `Ready` are those of `rest`. */
  ghost predicate ReadyAre(c: Config, s: States, rest: seq<NodeId>)
    requires s.Keys == c.init.Keys
  {
    forall v :: v in s ==> (c.init[v].Pending? && s[v].Ready? <==> v in rest)
  }

  ghost predicate WithinLimit(c: Config, n: nat) {
    c.limit.Some? ==> n <= c.limit.value
  }

  ghost predicate RestAdmitted(c: Config, s: States, tasks: map<NodeId, Task>, rest: seq<NodeId>)
    requires Covers(c.edges, s)
  {
    && Distinct(rest)
    && forall v :: v in rest ==> v in s && v !in tasks && Admitted(c.edges, s, v)
  }

  /** The states and calls of a run that has completed. */
  ghost predicate IsComplete(c: Config, s: States, calls: map<NodeId, nat>)
    requires Covers(c.edges, c.init) && s.Keys == c.init.Keys == calls.Keys
  {
    forall rank :: Ranked(c.edges, rank) ==> forall v :: v in s ==>
      && s[v] == Final(c.edges, rank, c.init, WorkOf(c), v)
      && calls[v] == if c.init[v].Pending? && (s[v].Succeeded? || s[v].Failed?) then c.Calls(v) else 0
  }

  ghost predicate PhaseOk(c: Config, st: State)
    requires Shaped(c, st)
  {
    match st.phase
    case Entering => st == Start(c).(cancelled := st.cancelled)
    case Planning => st.tasks == map[] && ReadyAre(c, st.s, []) && c.limit != Some(0)
    case Checking(wave) =>
      st.tasks == map[] && ReadyAre(c, st.s, []) && wave != [] && IsWave(c.edges, st.s, c.limit, wave)
    case Marking(wave) =>
      st.tasks == map[] && ReadyAre(c, st.s, []) && wave != [] && IsWave(c.edges, st.s, c.limit, wave)
    case Spawning(rest) =>
      && ReadyAre(c, st.s, rest) && RestAdmitted(c, st.s, st.tasks, rest)
      && WithinLimit(c, |st.tasks| + |rest|) && c.limit != Some(0)
    case Joining => ReadyAre(c, st.s, []) && WithinLimit(c, |st.tasks|) && c.limit != Some(0)
    case Leaving => st.tasks == map[] && Quiescent(c.edges, c.init, st.s)
    case Closing(progress) =>
      st.tasks == map[] && IsComplete(c, st.s, st.calls) && progress == ProgressOf(st.s, st.waves)
    case Stopping(_) => WithinLimit(c, |st.tasks|)
    case Ended(ending) =>
      && WithinLimit(c, |st.tasks|)
      && (ending.Stopped? && ending.why != CallerGone ==> st.tasks == map[])
      && (ending.Unsupported? ==>
            HasOutputEdge(c.edges) && st == Start(c).(phase := st.phase, cancelled := st.cancelled))
      && (ending.Finished? ==> st.tasks == map[] && exists s :: CompletedBefore(c, st, s, ending.progress))
  }

  /** `s` holds the states at completion, from which the cleanup made the present ones. */
  ghost predicate CompletedBefore(c: Config, st: State, s: States, progress: Progress)
    requires Shaped(c, st)
  {
    && s.Keys == c.init.Keys && IsComplete(c, s, st.calls)
    && st.s == CancelRemaining(s) && progress == ProgressOf(s, st.waves)
  }

  ghost predicate AgreesSoFar(c: Config, st: State)
    requires Shaped(c, st)
  {
    !st.cancelled && !st.phase.IsSwept() ==>
      forall rank :: Ranked(c.edges, rank) ==> Agrees(c.edges, rank, c.init, WorkOf(c), st.s)
  }

  /** Waves so far, counting one in progress. */
  function WavesBegun(st: State): nat {
    st.waves + if st.phase.Spawning? || st.phase.Joining? then 1 else 0
  }

  ghost predicate Inv(c: Config, st: State) {
    && Shaped(c, st) && NodesOk(c, st) && OnlyAdmitted(c, st) && PhaseOk(c, st) && AgreesSoFar(c, st)
    && WavesBegun(st) + |Pendings(st.s)| <= |Pendings(c.init)|
  }
}
