/** Exactly when cancelling the token distorts what a run leaves: when a cancelled node can
    make another one be skipped that would not have been. */
module Cancellations {
  import opened Prelude
  import opened Nodes
  import opened Edges
  import opened Topology
  import opened Propagation
  import opened Outcomes
  import opened Planning
  import opened ExecutorProtocol
  import opened ExecutorSteps
  import opened ExecutorRuns
  import opened ExecutorStops

  /** The node would be called, and end as its work does. */
  ghost predicate WouldWork(c: Config, rank: map<NodeId, nat>, u: NodeId)
    requires c.Proper() && Ranked(c.edges, rank) && u in c.init
  {
    c.init[u].Pending? && Final(c.edges, rank, c.init, WorkOf(c), u) == c.Work(u)
  }

  /** Whatever a cancellation of working nodes makes impossible is skipped anyway. */
  ghost predicate Sheltered(c: Config, rank: map<NodeId, nat>)
    requires c.Proper() && Ranked(c.edges, rank)
  {
    forall e :: e in c.edges && WouldWork(c, rank, e.source) && !Satisfied(Cancelled, e) &&
                c.init[e.target].Pending? ==>
      Final(c.edges, rank, c.init, WorkOf(c), e.target) == Skipped
  }

  /** However the run ended, each node is as the meaning of the graph says, or cancelled. */
  ghost predicate Undistorted(c: Config, rank: map<NodeId, nat>, run: seq<State>)
    requires c.Proper() && Ranked(c.edges, rank) && run != []
  {
    forall v :: v in c.init ==>
      && v in run[|run| - 1].s
      && (run[|run| - 1].s[v] == Final(c.edges, rank, c.init, WorkOf(c), v) || run[|run| - 1].s[v] == Cancelled)
  }

  ghost predicate NoRunIsDistorted(c: Config, rank: map<NodeId, nat>)
    requires c.Proper() && Ranked(c.edges, rank)
  {
    forall run: seq<State>, steps: seq<Action> :: IsRun(c, run, steps) && run[|run| - 1].phase.IsSwept() ==>
      Undistorted(c, rank, run)
  }

  // ----- Calls after a cancellation -----

  /** Task `v` has looked at the token, found it uncancelled, and is about to call. */
  ghost predicate HasLooked(st: State, v: NodeId) {
    v in st.tasks && st.tasks[v].Polled?
  }

  /** No task comes to this point once the token is cancelled. */
  lemma NoneLooksAnew(c: Config, st: State, a: Action, r: State, v: NodeId)
    requires IsStep(c, st, a, r) && st.cancelled
    ensures r.cancelled && (HasLooked(r, v) ==> HasLooked(st, v)) && (a == Invoke(v) ==> !HasLooked(r, v))
  {
    hide Covers, SkipAll, IsWave, Holders, ProgressOf, HasOutputEdge, MarkedComplete;
  }

  lemma CallerHasLooked(c: Config, st: State, v: NodeId, r: State)
    requires IsStep(c, st, Invoke(v), r)
    ensures HasLooked(st, v)
  {
    hide Covers, SkipAll, IsWave, Holders, ProgressOf, AfterCall, HasOutputEdge, MarkedComplete;
  }

  lemma {:induction false} LookedBefore(
      c: Config, run: seq<State>, steps: seq<Action>, i: nat, j: nat, v: NodeId)
    requires IsRun(c, run, steps) && i <= j < |run| && run[i].cancelled
    ensures run[j].cancelled && (HasLooked(run[j], v) ==> HasLooked(run[i], v))
    ensures HasLooked(run[j], v) ==> forall k :: i <= k < j ==> steps[k] != Invoke(v)
  {
    hide IsStep, HasLooked;
    if i < j {
      LookedBefore(c, run, steps, i, j - 1, v);
      assert IsStep(c, run[j - 1], steps[j - 1], run[j - 1 + 1]);
      NoneLooksAnew(c, run[j - 1], steps[j - 1], run[j], v);
    }
  }

  /** Once the token is cancelled a handler is called only by a task that had already looked
      at the token, and only once more: there are no further attempts and no further nodes. */
  lemma CancellationEndsCalls(c: Config, run: seq<State>, steps: seq<Action>, i: nat, j: nat, v: NodeId)
    requires IsRun(c, run, steps) && i <= j < |steps| && run[i].cancelled && steps[j] == Invoke(v)
    ensures v in run[i].tasks && run[i].tasks[v].Polled?
    ensures forall k :: i <= k < |steps| && k != j ==> steps[k] != Invoke(v)
  {
    hide IsStep;
    assert IsStep(c, run[j], steps[j], run[j + 1]);
    CallerHasLooked(c, run[j], v, run[j + 1]);
    LookedBefore(c, run, steps, i, j, v);
    forall k | j < k < |steps| ensures steps[k] != Invoke(v) {
      if steps[k] == Invoke(v) {
        assert IsStep(c, run[k], steps[k], run[k + 1]);
        CallerHasLooked(c, run[k], v, run[k + 1]);
        LookedBefore(c, run, steps, i, k, v);
      }
    }
  }

  // ----- Sheltered graphs -----

  lemma RefusedEndsSkipped(c: Config, rank: map<NodeId, nat>, u: NodeId, v: NodeId)
    requires c.Proper() && Ranked(c.edges, rank) && v in c.init && c.init[v].Pending? && u in c.init
    requires Refusing(c.edges, u, v, Skipped) && Final(c.edges, rank, c.init, WorkOf(c), u) == Skipped
    ensures Final(c.edges, rank, c.init, WorkOf(c), v) == Skipped
  {
    var e :| e in c.edges && e.source == u && e.target == v && !Satisfied(Skipped, e);
  }

  lemma {:induction false} KnockedEndsSkipped(
      c: Config, rank: map<NodeId, nat>, s: States, hit: set<NodeId>, p: seq<NodeId>, v: NodeId, i: nat)
    requires c.Proper() && Ranked(c.edges, rank) && Sheltered(c, rank) && KnocksOver(c, s, hit, p, v)
    requires p[0] in c.init && WouldWork(c, rank, p[0]) && 0 < i < |p|
    ensures p[i] in c.init && Final(c.edges, rank, c.init, WorkOf(c), p[i]) == Skipped
  {
    hide Final, HasCycle;
    assert Refusing(c.edges, p[i - 1], p[i], if i == 1 then Cancelled else Skipped);
    if i == 1 {
      var e :| e in c.edges && e.source == p[0] && e.target == p[1] && !Satisfied(Cancelled, e);
    } else {
      KnockedEndsSkipped(c, rank, s, hit, p, v, i - 1);
      RefusedEndsSkipped(c, rank, p[i - 1], p[i]);
    }
  }

  lemma ShelteredIsUndistorted(c: Config, rank: map<NodeId, nat>, run: seq<State>, steps: seq<Action>)
    requires c.Proper() && Ranked(c.edges, rank) && Sheltered(c, rank)
    requires IsRun(c, run, steps) && run[|run| - 1].phase.IsSwept()
    ensures Undistorted(c, rank, run)
  {
    hide Final, HasCycle, Sheltered, IsStep;
    var last, hit := run[|run| - 1], Hits(run, steps, |steps|);
    forall v | v in c.init
      ensures v in last.s && (last.s[v] == Final(c.edges, rank, c.init, WorkOf(c), v) || last.s[v] == Cancelled)
    {
      EndedRunIsExplained(c, run, steps, rank, v);
      if !c.init[v].Pending? {
        OthersMeanThemselves(c, rank, v);
      } else if last.s[v].Skipped? && BelowHit(c, last.s, hit, v) {
        var p :| KnocksOver(c, last.s, hit, p, v);
        HitsAreNodes(c, run, steps, |steps|);
        EndedRunIsExplained(c, run, steps, rank, p[0]);
        KnockedEndsSkipped(c, rank, last.s, hit, p, v, |p| - 1);
      }
    }
  }

  lemma {:induction false} HitsAreNodes(c: Config, run: seq<State>, steps: seq<Action>, n: nat)
    requires IsRun(c, run, steps) && n <= |steps|
    ensures forall v :: v in Hits(run, steps, n) ==> v in c.init
  {
    hide Inv, IsStep;
    if n > 0 {
      HitsAreNodes(c, run, steps, n - 1);
      RunKeepsInv(c, run, steps, n - 1);
      ShapeHolds(c, run[n - 1]);
    }
  }

  // ----- Other graphs -----

  /** Only a call of the handler raises the number of calls. */
  lemma CallsRise(c: Config, st: State, a: Action, u: NodeId)
    requires Covers(c.edges, st.s) && Enabled(c, st, a) && u in st.calls && st.calls[u] == 0
    ensures u in Apply(c, st, a).calls && (Apply(c, st, a).calls[u] > 0 ==> a == Invoke(u))
  {
    hide Covers, SkipAll, IsWave, Holders, ProgressOf, AfterCall, HasOutputEdge, MarkedComplete;
  }

  lemma {:induction false} CallHappened(c: Config, run: seq<State>, steps: seq<Action>, u: NodeId, n: nat)
      returns (i: nat)
    requires IsRun(c, run, steps) && u in c.init && n < |run| && u in run[n].calls && run[n].calls[u] > 0
    ensures i < n && steps[i] == Invoke(u)
  {
    hide Inv, Enabled, Apply;
    assert n > 0;
    assert IsStep(c, run[n - 1], steps[n - 1], run[n - 1 + 1]);
    RunKeepsInv(c, run, steps, n - 1);
    ShapeHolds(c, run[n - 1]);
    if run[n - 1].calls[u] > 0 {
      i := CallHappened(c, run, steps, u, n - 1);
    } else {
      CallsRise(c, run[n - 1], steps[n - 1], u);
      i := n - 1;
    }
  }

  lemma RunPrefix(c: Config, run: seq<State>, steps: seq<Action>, n: nat)
    requires IsRun(c, run, steps) && n <= |steps|
    ensures IsRun(c, run[..n + 1], steps[..n])
  {
    hide IsStep;
    var begun, taken := run[..n + 1], steps[..n];
    forall i | 0 <= i < n ensures IsStep(c, begun[i], taken[i], begun[i + 1]) {
      assert IsStep(c, run[i], steps[i], run[i + 1]);
    }
  }

  /** A state in which the handler of `u` is at work, and nothing has stopped the run. */
  ghost predicate AtWork(c: Config, st: State, u: NodeId) {
    && Inv(c, st) && u in st.tasks && st.tasks[u].Calling? && !st.cancelled
    && (st.phase.Spawning? || st.phase.Joining?)
  }

  /** In a run without disturbance every call happens in such a state. */
  lemma CallIsAtWork(c: Config, run: seq<State>, steps: seq<Action>, u: NodeId, i: nat)
    requires IsRun(c, run, steps) && i < |steps| && steps[i] == Invoke(u)
    requires Cancel !in steps && TimeOut !in steps && Drop !in steps && c.limit != Some(0)
    ensures AtWork(c, run[i + 1], u)
  {
    hide AgreesSoFar, HasCycle, OnlyAdmitted, NodesOk;
    RunKeepsInv(c, run, steps, i + 1);
    StopsAreJustified(c, run, steps, i + 1);
    assert IsStep(c, run[i], steps[i], run[i + 1]);
    forall a | a in steps[..i + 1] ensures a in steps {
    }
    NotSwept(c, run[i + 1], u);
  }

  lemma NotSwept(c: Config, st: State, u: NodeId)
    requires Inv(c, st) && u in st.tasks
    ensures st.phase.IsSwept() ==> st.phase == Ended(Stopped(CallerGone))
    ensures st.phase.Spawning? || st.phase.Joining? || st.phase.Stopping? || st.phase.IsSwept()
  {
    hide AgreesSoFar, HasCycle, OnlyAdmitted, NodesOk, IsComplete;
    TaskIsAdmitted(c, st, u);
    assert st.tasks != map[];
  }

  /** While `u` is at work, a node behind it by an edge has not begun. */
  lemma TargetWaits(c: Config, rank: map<NodeId, nat>, st: State, e: Edge)
    requires c.Proper() && Ranked(c.edges, rank) && AtWork(c, st, e.source) && e in c.edges
    requires e.target in c.init && c.init[e.target].Pending?
    requires Final(c.edges, rank, c.init, WorkOf(c), e.target) != Skipped
    ensures e.source in st.s && st.s[e.source].Running? && e.target in st.s && st.s[e.target].Pending?
  {
    hide Final, HasCycle, Quiescent;
    var u, v := e.source, e.target;
    TaskIsOk(c, st, u);
    assert !Satisfied(st.s[u], e);
    assert !Admitted(c.edges, st.s, v);
    assert NodeOk(c, v, st.s[v], TaskAt(st.tasks, v), st.calls[v], st.cancelled, StageOf(st.phase));
    assert v !in st.tasks && st.calls[v] == 0;
    assert c.Calls(v) >= 1;
  }

  /** The state once the token was cancelled, the task of `u` saw it and recorded it. */
  ghost function CancelledAt(c: Config, st: State, u: NodeId): State
    requires Covers(c.edges, st.s) && u in st.s
  {
    st.(s := MarkedComplete(c.edges, st.s, u, Cancelled), tasks := st.tasks[u := Recorded], cancelled := true)
  }

  lemma CancellingSteps(c: Config, st: State, u: NodeId)
    requires Covers(c.edges, st.s) && u in st.s && st.s[u].Running? && u in st.tasks && st.tasks[u].Calling?
    requires !st.cancelled
    ensures var st1 := st.(cancelled := true);
            var st2 := st1.(tasks := st.tasks[u := Deciding(Cancelled)]);
            && IsStep(c, st, Cancel, st1) && IsStep(c, st1, Notice(u), st2)
            && IsStep(c, st2, Record(u), CancelledAt(c, st, u))
  {
    hide Covers, SkipAll, HasOutputEdge, IsWave;
    assert st.tasks[u := Deciding(Cancelled)][u := Recorded] == st.tasks[u := Recorded];
  }

  /** The run in which the task of `u` is cancelled in the middle of its call. */
  lemma CancelledRun(c: Config, run: seq<State>, steps: seq<Action>, u: NodeId)
      returns (longer: seq<State>, more: seq<Action>)
    requires IsRun(c, run, steps) && AtWork(c, run[|run| - 1], u)
    ensures IsRun(c, longer, more)
    ensures var st := run[|run| - 1];
            Covers(c.edges, st.s) && u in st.s && longer[|longer| - 1] == CancelledAt(c, st, u)
  {
    hide Inv, IsStep, CancelledAt;
    var st := run[|run| - 1];
    ShapeHolds(c, st);
    TaskIsOk(c, st, u);
    assert st.s[u].Running? by {
      RunsWhileCalled(c, st, u);
    }
    CancellingSteps(c, st, u);
    var st1 := st.(cancelled := true);
    var st2 := st1.(tasks := st.tasks[u := Deciding(Cancelled)]);
    Then(c, run, steps, Cancel, st1);
    Then(c, run + [st1], steps + [Cancel], Notice(u), st2);
    longer, more := run + [st1] + [st2], steps + [Cancel] + [Notice(u)];
    Then(c, longer, more, Record(u), CancelledAt(c, st, u));
    longer, more := longer + [CancelledAt(c, st, u)], more + [Record(u)];
  }

  lemma RunsWhileCalled(c: Config, st: State, u: NodeId)
    requires AtWork(c, st, u)
    ensures u in st.s && st.s[u].Running?
  {
    hide AgreesSoFar, OnlyAdmitted, PhaseOk, HasCycle;
    TaskIsOk(c, st, u);
  }

  /** A pending node behind the cancelled one, by an edge that this does not satisfy, is skipped. */
  lemma TargetIsSkipped(c: Config, st: State, e: Edge)
    requires Covers(c.edges, st.s) && e in c.edges && e.source != e.target && !Satisfied(Cancelled, e)
    requires e.source in st.s && e.target in st.s && st.s[e.target].Pending?
    ensures e.target in CancelledAt(c, st, e.source).s
    ensures CancelledAt(c, st, e.source).s[e.target] == Skipped
  {
    hide SkipAll, Covers;
    var t := st.s[e.source := Cancelled];
    assert Covers(c.edges, t) by {
      CoversAlike(c.edges, st.s, t);
    }
    SkipAllKeepsFinished(c.edges, t);
    SkipAllIsFixpoint(c.edges, t);
    CoversAlike(c.edges, t, SkipAll(c.edges, t));
    assert Refuses(SkipAll(c.edges, t), e);
    assert !Impossible(c.edges, SkipAll(c.edges, t), e.target);
  }

  lemma CoversAlike(edges: seq<Edge>, s: States, t: States)
    requires Covers(edges, s) && s.Keys <= t.Keys
    ensures Covers(edges, t)
  {
  }

  /** Finished nodes stay as they are to the end of a run. */
  lemma {:induction false} FinishedStay(c: Config, run: seq<State>, steps: seq<Action>, i: nat, j: nat, v: NodeId)
    requires IsRun(c, run, steps) && i <= j < |run| && v in run[i].s && run[i].s[v].IsTerminal()
    ensures v in run[j].s && run[j].s[v] == run[i].s[v]
  {
    hide Inv, Enabled, Apply;
    if i < j {
      FinishedStay(c, run, steps, i, j - 1, v);
      RunKeepsInv(c, run, steps, j - 1);
      assert IsStep(c, run[j - 1], steps[j - 1], run[j - 1 + 1]);
      EveryStepIsSafe(c, run[j - 1], steps[j - 1]);
    }
  }

  lemma OverIsSwept(c: Config, st: State)
    requires Inv(c, st) && IsOver(st) && !HasOutputEdge(c.edges)
    ensures st.phase.IsSwept()
  {
    hide AgreesSoFar, OnlyAdmitted, NodesOk, HasCycle, HasOutputEdge;
  }

  /** Some run reaches the middle of a call of a node that would work. */
  lemma CallIsReached(c: Config, rank: map<NodeId, nat>, u: NodeId) returns (run: seq<State>, steps: seq<Action>)
    requires c.Proper() && Ranked(c.edges, rank) && u in c.init && WouldWork(c, rank, u)
    requires c.limit != Some(0) && !HasOutputEdge(c.edges)
    ensures IsRun(c, run, steps) && AtWork(c, run[|run| - 1], u)
  {
    hide Inv, IsStep, HasOutputEdge, Final, AtWork, HasCycle;
    EmptyRunIsRun(c);
    var whole, taken := CarryOn(c, [Start(c)], []);
    assert IsExternal(Cancel) && IsExternal(TimeOut) && IsExternal(Drop);
    UndisturbedRunFinishes(c, whole, taken);
    CompletedRunIsFinal(c, whole, taken, rank, u);
    WorkEnds(c, u);
    var i := CallHappened(c, whole, taken, u, |whole| - 1);
    CallIsAtWork(c, whole, taken, u, i);
    RunPrefix(c, whole, taken, i + 1);
    run, steps := whole[..i + 2], taken[..i + 1];
  }

  lemma EmptyRunIsRun(c: Config)
    requires c.Proper()
    ensures IsRun(c, [Start(c)], [])
  {
  }

  lemma WorkEnds(c: Config, u: NodeId)
    ensures c.Work(u).Succeeded? || c.Work(u).Failed?
  {
  }

  /** If a cancellation can make another node be skipped, some run is so distorted. */
  lemma DistortedRun(c: Config, rank: map<NodeId, nat>, e: Edge) returns (run: seq<State>, steps: seq<Action>)
    requires c.Proper() && Ranked(c.edges, rank) && c.limit != Some(0) && !HasOutputEdge(c.edges)
    requires e in c.edges && e.source in c.init && e.target in c.init && WouldWork(c, rank, e.source)
    requires !Satisfied(Cancelled, e) && c.init[e.target].Pending?
    requires Final(c.edges, rank, c.init, WorkOf(c), e.target) != Skipped
    ensures IsRun(c, run, steps) && run[|run| - 1].phase.IsSwept() && !Undistorted(c, rank, run)
  {
    hide Inv, IsStep, HasOutputEdge, Final, AtWork, HasCycle, CancelledAt, IsOver;
    var u, v := e.source, e.target;
    var begun, taken := CallIsReached(c, rank, u);
    var st := begun[|begun| - 1];
    TargetWaits(c, rank, st, e);
    var longer, more := CancelledRun(c, begun, taken, u);
    TargetIsSkipped(c, st, e);
    run, steps := CarryOn(c, longer, more);
    var n := |longer| - 1;
    assert run[n] == longer[n];
    FinishedStay(c, run, steps, n, |run| - 1, v);
    RunKeepsInv(c, run, steps, |run| - 1);
    OverIsSwept(c, run[|run| - 1]);
  }

  // ----- Executions that never begin -----

  /** Nothing has been done to the nodes but cancelling them at the end. */
  ghost predicate Unbegun(c: Config, st: State) {
    && c.Proper() && st.tasks == map[]
    && (st.phase.Entering? || st.phase.Stopping? || st.phase.Ended?)
    && (st.s == c.init || (st.phase.IsSwept() && st.s == CancelRemaining(c.init)))
    && (st.phase.Ended? && st.phase.ending.Finished? ==> false)
  }

  lemma UnbegunStep(c: Config, st: State, a: Action, r: State)
    requires c.limit == Some(0) || HasOutputEdge(c.edges)
    requires Unbegun(c, st) && IsStep(c, st, a, r)
    ensures Unbegun(c, r)
  {
    hide Covers, SkipAll, IsWave, Holders, ProgressOf, AfterCall, HasOutputEdge, HasCycle;
  }

  lemma {:induction false} NeverBegins(c: Config, run: seq<State>, steps: seq<Action>, i: nat)
    requires c.limit == Some(0) || HasOutputEdge(c.edges)
    requires IsRun(c, run, steps) && i < |run|
    ensures Unbegun(c, run[i])
  {
    hide IsStep, HasOutputEdge, Unbegun;
    if i == 0 {
      StartIsUnbegun(c);
    } else {
      NeverBegins(c, run, steps, i - 1);
      assert IsStep(c, run[i - 1], steps[i - 1], run[i - 1 + 1]);
      UnbegunStep(c, run[i - 1], steps[i - 1], run[i]);
    }
  }

  lemma StartIsUnbegun(c: Config)
    requires c.Proper()
    ensures Unbegun(c, Start(c))
  {
  }

  lemma UnbegunIsUndistorted(c: Config, rank: map<NodeId, nat>, run: seq<State>, steps: seq<Action>)
    requires c.Proper() && Ranked(c.edges, rank) && (c.limit == Some(0) || HasOutputEdge(c.edges))
    requires IsRun(c, run, steps) && run[|run| - 1].phase.IsSwept()
    ensures Undistorted(c, rank, run)
  {
    hide IsStep, HasOutputEdge, Final, HasCycle;
    NeverBegins(c, run, steps, |run| - 1);
    var last := run[|run| - 1];
    forall v | v in c.init
      ensures v in last.s && (last.s[v] == Final(c.edges, rank, c.init, WorkOf(c), v) || last.s[v] == Cancelled)
    {
      EndedRunIsExplained(c, run, steps, rank, v);
      if !c.init[v].Pending? {
        OthersMeanThemselves(c, rank, v);
      }
    }
  }

  /** Every run, however it ends, leaves each node as the meaning of the graph says, or
      cancelled, exactly when no cancellation of a node that would work can make another
      one be skipped that would not be; or when nothing is ever begun. */
  lemma NoRunIsDistortedIff(c: Config, rank: map<NodeId, nat>)
    requires c.Proper() && Ranked(c.edges, rank)
    ensures NoRunIsDistorted(c, rank) <==> Sheltered(c, rank) || c.limit == Some(0) || HasOutputEdge(c.edges)
  {
    hide IsStep, HasOutputEdge, Final, HasCycle, Undistorted;
    if Sheltered(c, rank) || c.limit == Some(0) || HasOutputEdge(c.edges) {
      forall run: seq<State>, steps: seq<Action> | IsRun(c, run, steps) && run[|run| - 1].phase.IsSwept()
        ensures Undistorted(c, rank, run)
      {
        if Sheltered(c, rank) {
          ShelteredIsUndistorted(c, rank, run, steps);
        } else {
          UnbegunIsUndistorted(c, rank, run, steps);
        }
      }
    } else {
      var e :| e in c.edges && WouldWork(c, rank, e.source) && !Satisfied(Cancelled, e) && c.init[e.target].Pending?
        && Final(c.edges, rank, c.init, WorkOf(c), e.target) != Skipped;
      var run, steps := DistortedRun(c, rank, e);
    }
  }
}
