/** What survives when a run of the executor is stopped early: how each finished node is
    explained by the meaning of the graph and by the nodes that were cancelled. */
module ExecutorStops {
  import opened Prelude
  import opened Nodes
  import opened Edges
  import opened Topology
  import opened Propagation
  import opened Outcomes
  import opened Planning
  import opened ExecutorProtocol
  import opened ExecutorSteps
  import opened ExecutorRuns

  // ----- Nodes cancelled by their own tasks -----

  /** The node, if any, that this step cancels because its task saw the token cancelled. */
  ghost function HitBy(st: State, a: Action): set<NodeId> {
    if a.Record? && a.v in st.tasks && a.v in st.s && st.tasks[a.v] == Deciding(Cancelled) && !st.s[a.v].Cancelled?
    then {a.v} else {}
  }

  /** The nodes so cancelled in the first `n` steps of a run. */
  ghost function Hits(run: seq<State>, steps: seq<Action>, n: nat): set<NodeId>
    requires n <= |steps| && n <= |run|
  {
    if n == 0 then {} else Hits(run, steps, n - 1) + HitBy(run[n - 1], steps[n - 1])
  }

  /** Some edge from `u` to `v` is not satisfied by the end `x` of `u`. */
  ghost predicate Refusing(edges: seq<Edge>, u: NodeId, v: NodeId, x: NodeState) {
    exists e :: e in edges && e.source == u && e.target == v && !Satisfied(x, e)
  }

  /** `p` leads from a cancelled node of `hit` over skipped ones to `v`, by edges that the
      cancellation and the skips do not satisfy. */
  ghost predicate KnocksOver(c: Config, s: States, hit: set<NodeId>, p: seq<NodeId>, v: NodeId) {
    && |p| > 1 && p[|p| - 1] == v && p[0] in hit
    && (forall i :: 0 < i < |p| ==> p[i] in c.init && c.init[p[i]].Pending? && p[i] in s && s[p[i]].Skipped?)
    && forall i :: 0 < i < |p| ==> Refusing(c.edges, p[i - 1], p[i], if i == 1 then Cancelled else Skipped)
  }

  /** `v` was skipped for a node that was cancelled. */
  ghost predicate BelowHit(c: Config, s: States, hit: set<NodeId>, v: NodeId) {
    exists p :: KnocksOver(c, s, hit, p, v)
  }

  /** A node that ended by its work ended as the meaning of the graph says; a skipped one
      did so, or was skipped for one that was cancelled. */
  ghost predicate NodeExplained(c: Config, rank: map<NodeId, nat>, s: States, hit: set<NodeId>, v: NodeId)
    requires c.Proper() && Ranked(c.edges, rank) && v in c.init && v in s
  {
    var f := Final(c.edges, rank, c.init, WorkOf(c), v);
    && (s[v].Succeeded? || s[v].Failed? ==> s[v] == f)
    && (s[v].Skipped? ==> f == Skipped || BelowHit(c, s, hit, v))
  }

  /** Nodes cancelled by their own tasks would otherwise have ended by their work. */
  ghost predicate HitsWouldWork(c: Config, rank: map<NodeId, nat>, s: States, hit: set<NodeId>)
    requires c.Proper() && Ranked(c.edges, rank)
  {
    forall u :: u in hit ==>
      && u in c.init && c.init[u].Pending? && u in s && s[u].Cancelled?
      && Final(c.edges, rank, c.init, WorkOf(c), u) == c.Work(u)
  }

  /** Until the clean-up no others are cancelled. */
  ghost predicate CancelledAreHit(c: Config, s: States, hit: set<NodeId>) {
    forall v :: v in c.init && c.init[v].Pending? && v in s && s[v].Cancelled? ==> v in hit
  }

  ghost predicate StatesExplained(c: Config, rank: map<NodeId, nat>, s: States, hit: set<NodeId>)
    requires c.Proper() && Ranked(c.edges, rank) && s.Keys == c.init.Keys
  {
    forall v :: v in c.init && c.init[v].Pending? ==> NodeExplained(c, rank, s, hit, v)
  }

  /** Nodes that did not start pending are as they started. */
  ghost predicate OthersKept(c: Config, s: States)
    requires s.Keys == c.init.Keys
  {
    forall v :: v in c.init && !c.init[v].Pending? ==> s[v] == c.init[v]
  }

  lemma BelowHitStays(c: Config, s: States, t: States, hit: set<NodeId>, more: set<NodeId>, v: NodeId)
    requires KeepsFinished(s, t) && hit <= more && BelowHit(c, s, hit, v)
    ensures BelowHit(c, t, more, v)
  {
    hide Refusing;
    var p :| KnocksOver(c, s, hit, p, v);
    assert KnocksOver(c, t, more, p, v);
  }

  /** Whatever only adds finished nodes of other kinds keeps the explanations. */
  lemma ExplanationStays(
      c: Config, rank: map<NodeId, nat>, s: States, t: States, hit: set<NodeId>, more: set<NodeId>, v: NodeId)
    requires c.Proper() && Ranked(c.edges, rank) && v in c.init && v in s && KeepsFinished(s, t) && hit <= more
    requires NodeExplained(c, rank, s, hit, v)
    requires t[v] == s[v] || !(t[v].Succeeded? || t[v].Failed? || t[v].Skipped?)
    ensures NodeExplained(c, rank, t, more, v)
  {
    hide Final, BelowHit;
    if s[v].Skipped? && BelowHit(c, s, hit, v) {
      BelowHitStays(c, s, t, hit, more, v);
    }
  }

  /** A node that is skipped for a cancelled one, or for one that was skipped for such. */
  lemma OneEdgeBelow(c: Config, s: States, r: States, hit: set<NodeId>, e: Edge)
    requires e in c.edges && e.source in s && Refuses(s, e) && KeepsFinished(s, r)
    requires (s[e.source].Cancelled? && e.source in hit) || (s[e.source].Skipped? && BelowHit(c, s, hit, e.source))
    requires e.target in c.init && c.init[e.target].Pending? && e.target in r && r[e.target].Skipped?
    ensures BelowHit(c, r, hit, e.target)
  {
    hide KeepsFinished;
    var u, v := e.source, e.target;
    assert Refusing(c.edges, u, v, s[u]);
    if s[u].Cancelled? && u in hit {
      assert KnocksOver(c, r, hit, [u, v], v);
    } else {
      BelowHitStays(c, s, r, hit, hit, u);
      var p :| KnocksOver(c, r, hit, p, u);
      OneMoreKnocked(c, r, hit, p, u, v);
    }
  }

  lemma OneMoreKnocked(c: Config, r: States, hit: set<NodeId>, p: seq<NodeId>, u: NodeId, v: NodeId)
    requires KnocksOver(c, r, hit, p, u) && Refusing(c.edges, u, v, Skipped)
    requires v in c.init && c.init[v].Pending? && v in r && r[v].Skipped?
    ensures BelowHit(c, r, hit, v)
  {
    hide Refusing;
    var q := p + [v];
    forall i | 0 < i < |q| ensures Refusing(c.edges, q[i - 1], q[i], if i == 1 then Cancelled else Skipped) {
      if i < |p| {
        assert Refusing(c.edges, p[i - 1], p[i], if i == 1 then Cancelled else Skipped);
      }
    }
    assert KnocksOver(c, r, hit, q, v);
  }

  /** A node skipped now is destined to be, or is skipped for a cancelled one. */
  lemma SkipIsExplained(c: Config, rank: map<NodeId, nat>, s: States, r: States, hit: set<NodeId>, v: NodeId)
    requires c.Proper() && Ranked(c.edges, rank) && s.Keys == c.init.Keys && KeepsFinished(s, r)
    requires StatesExplained(c, rank, s, hit) && CancelledAreHit(c, s, hit) && OthersKept(c, s)
    requires v in s && Impossible(c.edges, s, v) && r[v].Skipped?
    ensures c.init[v].Pending?
    ensures Final(c.edges, rank, c.init, WorkOf(c), v) == Skipped || BelowHit(c, r, hit, v)
  {
    var e :| e in c.edges && e.target == v && Refuses(s, e);
    var u := e.source;
    if c.init[u].Pending? && (s[u].Cancelled? || (s[u].Skipped? && BelowHit(c, s, hit, u))) {
      OneEdgeBelow(c, s, r, hit, e);
    } else {
      assert c.init[u].Pending? ==> NodeExplained(c, rank, s, hit, u);
      assert s[u] == Final(c.edges, rank, c.init, WorkOf(c), u);
    }
  }

  lemma SkipRoundExplained(c: Config, rank: map<NodeId, nat>, s: States, hit: set<NodeId>)
    requires c.Proper() && Ranked(c.edges, rank) && s.Keys == c.init.Keys
    requires StatesExplained(c, rank, s, hit) && CancelledAreHit(c, s, hit) && OthersKept(c, s)
    ensures var r := SkipRound(c.edges, s);
            StatesExplained(c, rank, r, hit) && CancelledAreHit(c, r, hit) && OthersKept(c, r)
  {
    hide Final, Impossible, BelowHit, HasCycle;
    var r := SkipRound(c.edges, s);
    PendingBorn(c, s);
    forall v | v in c.init && c.init[v].Pending? ensures NodeExplained(c, rank, r, hit, v) {
      if Impossible(c.edges, s, v) {
        SkipIsExplained(c, rank, s, r, hit, v);
      } else {
        ExplanationStays(c, rank, s, r, hit, hit, v);
      }
    }
  }

  lemma PendingBorn(c: Config, s: States)
    requires Covers(c.edges, c.init) && s.Keys == c.init.Keys && OthersKept(c, s)
    ensures KeepsFinished(s, SkipRound(c.edges, s)) && OthersKept(c, SkipRound(c.edges, s))
  {
  }

  lemma {:induction false} SkipAllExplained(c: Config, rank: map<NodeId, nat>, s: States, hit: set<NodeId>)
    requires c.Proper() && Ranked(c.edges, rank) && s.Keys == c.init.Keys
    requires StatesExplained(c, rank, s, hit) && CancelledAreHit(c, s, hit) && OthersKept(c, s)
    ensures StatesExplained(c, rank, SkipAll(c.edges, s), hit) && CancelledAreHit(c, SkipAll(c.edges, s), hit)
    decreases Pendings(s)
  {
    hide StatesExplained, CancelledAreHit, OthersKept, HasCycle;
    var r := SkipRound(c.edges, s);
    if r != s {
      SkippedRoundShrinks(c.edges, s);
      SkipRoundExplained(c, rank, s, hit);
      SkipAllExplained(c, rank, r, hit);
    }
  }

  /** The end of a node that is destined to run, or its cancellation, is explained, with
      all that is skipped for it. */
  lemma EndExplained(
      c: Config, rank: map<NodeId, nat>, s: States, hit: set<NodeId>, w: NodeId, end: NodeState, more: set<NodeId>)
    requires c.Proper() && Ranked(c.edges, rank) && s.Keys == c.init.Keys
    requires StatesExplained(c, rank, s, hit) && CancelledAreHit(c, s, hit) && OthersKept(c, s)
    requires w in s && c.init[w].Pending? && !s[w].IsTerminal()
    requires more == hit + if end == Cancelled then {w} else {}
    requires end == Cancelled ||
             ((end == Succeeded || end == Failed) && end == Final(c.edges, rank, c.init, WorkOf(c), w))
    ensures var r := MarkedComplete(c.edges, s, w, end);
            StatesExplained(c, rank, r, more) && CancelledAreHit(c, r, more)
  {
    hide Final, BelowHit, HasCycle, SkipAll;
    var t := s[w := end];
    forall v | v in c.init && c.init[v].Pending? ensures NodeExplained(c, rank, t, more, v) {
      if v != w {
        ExplanationStays(c, rank, s, t, hit, more, v);
      }
    }
    SkipAllExplained(c, rank, t, more);
  }

  // ----- Along runs -----

  /** A node that has a task or will get one in the present wave. */
  ghost predicate InFlight(st: State, v: NodeId) {
    || v in st.tasks
    || (st.phase.Marking? && v in st.phase.wave)
    || (st.phase.Spawning? && v in st.phase.rest)
  }

  ghost predicate RunExplained(c: Config, rank: map<NodeId, nat>, st: State, hit: set<NodeId>)
    requires Shaped(c, st) && Ranked(c.edges, rank)
  {
    && StatesExplained(c, rank, st.s, hit) && HitsWouldWork(c, rank, st.s, hit)
    && (!st.phase.IsSwept() ==> CancelledAreHit(c, st.s, hit))
    && (forall v :: v in c.init && InFlight(st, v) ==> Final(c.edges, rank, c.init, WorkOf(c), v) == c.Work(v))
    && (st.phase.IsSwept() && !st.cancelled ==> AsFinalOrCancelled(c, rank, st.s))
  }

  ghost predicate AsFinalOrCancelled(c: Config, rank: map<NodeId, nat>, s: States)
    requires c.Proper() && Ranked(c.edges, rank) && s.Keys == c.init.Keys
  {
    forall v :: v in c.init ==> s[v] == Final(c.edges, rank, c.init, WorkOf(c), v) || s[v] == Cancelled
  }

  lemma UnsweptKeepsOthers(c: Config, st: State)
    requires Inv(c, st) && !st.phase.IsSwept()
    ensures OthersKept(c, st.s)
  {
    hide AgreesSoFar, OnlyAdmitted, PhaseOk, HasCycle;
    forall v | v in c.init && !c.init[v].Pending? ensures st.s[v] == c.init[v] {
      assert NodeOk(c, v, st.s[v], TaskAt(st.tasks, v), st.calls[v], st.cancelled, StageOf(st.phase));
    }
  }

  lemma StartExplained(c: Config, rank: map<NodeId, nat>)
    requires c.Proper() && Ranked(c.edges, rank)
    ensures Shaped(c, Start(c)) && RunExplained(c, rank, Start(c), {})
  {
  }

  /** A step that keeps node states, and puts no other node in flight. */
  lemma SameStatesExplained(c: Config, rank: map<NodeId, nat>, st: State, hit: set<NodeId>, r: State)
    requires Shaped(c, st) && Shaped(c, r) && Ranked(c.edges, rank) && RunExplained(c, rank, st, hit)
    requires r.s == st.s && (forall v :: InFlight(r, v) ==> InFlight(st, v))
    requires r.phase.IsSwept() <==> st.phase.IsSwept()
    requires st.cancelled ==> r.cancelled
    ensures RunExplained(c, rank, r, hit)
  {
    hide Final, StatesExplained, HitsWouldWork, CancelledAreHit, InFlight, HasCycle, Ranked;
  }

  /** A wave that is marked was planned without a cancellation, so its nodes are destined to run. */
  lemma MarkedWaveRuns(c: Config, rank: map<NodeId, nat>, st: State)
    requires Inv(c, st) && Ranked(c.edges, rank) && st.phase.Checking? && !st.cancelled
    ensures forall v :: v in st.phase.wave ==> v in c.init && Final(c.edges, rank, c.init, WorkOf(c), v) == c.Work(v)
  {
    hide Final, NodesOk, OnlyAdmitted, HasCycle, Ranked;
    UnsweptKeepsOthers(c, st);
    forall v | v in st.phase.wave ensures v in c.init && Final(c.edges, rank, c.init, WorkOf(c), v) == c.Work(v) {
      assert IsReady(c.edges, st.s, v);
      AdmittedEndsAsItsWork(c.edges, rank, c.init, WorkOf(c), st.s, v);
    }
  }

  lemma CheckExplained(c: Config, rank: map<NodeId, nat>, st: State, hit: set<NodeId>)
    requires Inv(c, st) && Ranked(c.edges, rank) && RunExplained(c, rank, st, hit) && st.phase.Checking?
    ensures RunExplained(c, rank,
              st.(phase := if st.cancelled then Stopping(TokenCancelled) else Marking(st.phase.wave)), hit)
  {
    hide Final, NodesOk, OnlyAdmitted, HasCycle, Ranked, StatesExplained, HitsWouldWork, CancelledAreHit;
    hide AgreesSoFar, PhaseOk;
    if !st.cancelled {
      MarkedWaveRuns(c, rank, st);
    }
  }

  lemma PlanExplained(c: Config, rank: map<NodeId, nat>, st: State, hit: set<NodeId>, phase: Phase)
    requires Inv(c, st) && Ranked(c.edges, rank) && RunExplained(c, rank, st, hit) && st.phase.Planning?
    requires phase.Leaving? || phase.Checking?
    ensures RunExplained(c, rank, st.(s := SkipAll(c.edges, st.s), phase := phase), hit)
  {
    hide Final, NodesOk, OnlyAdmitted, HasCycle, Ranked, StatesExplained, CancelledAreHit;
    hide AgreesSoFar, PhaseOk, SkipAll, OthersKept, HitsWouldWork;
    UnsweptKeepsOthers(c, st);
    SkipAllExplained(c, rank, st.s, hit);
    SkipAllKeepsFinished(c.edges, st.s);
    HitsStay(c, rank, st.s, SkipAll(c.edges, st.s), hit);
  }

  lemma HitsStay(c: Config, rank: map<NodeId, nat>, s: States, t: States, hit: set<NodeId>)
    requires c.Proper() && Ranked(c.edges, rank) && HitsWouldWork(c, rank, s, hit) && KeepsFinished(s, t)
    ensures HitsWouldWork(c, rank, t, hit)
  {
    hide Final;
  }

  /** States in which no node has newly finished. */
  lemma UnfinishedExplained(c: Config, rank: map<NodeId, nat>, s: States, t: States, hit: set<NodeId>)
    requires c.Proper() && Ranked(c.edges, rank) && s.Keys == c.init.Keys && KeepsFinished(s, t)
    requires StatesExplained(c, rank, s, hit) && HitsWouldWork(c, rank, s, hit)
    requires forall v :: v in s ==> t[v] == s[v] || !t[v].IsTerminal() || t[v].Cancelled?
    ensures StatesExplained(c, rank, t, hit) && HitsWouldWork(c, rank, t, hit)
    ensures CancelledAreHit(c, s, hit) && (forall v :: v in s ==> t[v] == s[v] || !t[v].IsTerminal()) ==>
              CancelledAreHit(c, t, hit)
  {
    hide Final, BelowHit, HasCycle, Ranked, NodeExplained, HitsWouldWork;
    HitsStay(c, rank, s, t, hit);
    forall v | v in c.init && c.init[v].Pending? ensures NodeExplained(c, rank, t, hit, v) {
      ExplanationStays(c, rank, s, t, hit, hit, v);
    }
  }

  /** A step of a wave in which no node finishes. */
  lemma UnfinishedStepExplained(c: Config, rank: map<NodeId, nat>, st: State, hit: set<NodeId>, r: State)
    requires Shaped(c, st) && Shaped(c, r) && Ranked(c.edges, rank) && RunExplained(c, rank, st, hit)
    requires KeepsFinished(st.s, r.s) && forall v :: v in st.s ==> r.s[v] == st.s[v] || !r.s[v].IsTerminal()
    requires !st.phase.IsSwept() && !r.phase.IsSwept() && forall v :: InFlight(r, v) ==> InFlight(st, v)
    ensures RunExplained(c, rank, r, hit)
  {
    hide Final, StatesExplained, HitsWouldWork, CancelledAreHit, InFlight, HasCycle, Ranked, AsFinalOrCancelled;
    UnfinishedExplained(c, rank, st.s, r.s, hit);
  }

  lemma MarkExplained(c: Config, rank: map<NodeId, nat>, st: State, hit: set<NodeId>)
    requires Inv(c, st) && Ranked(c.edges, rank) && RunExplained(c, rank, st, hit) && st.phase.Marking?
    ensures RunExplained(c, rank, st.(s := AllReady(st.s, st.phase.wave), phase := Spawning(st.phase.wave)), hit)
  {
    hide NodesOk, OnlyAdmitted, HasCycle, Ranked, RunExplained, AgreesSoFar, PhaseOk;
    UnfinishedStepExplained(
      c, rank, st, hit, st.(s := AllReady(st.s, st.phase.wave), phase := Spawning(st.phase.wave)));
  }

  lemma SpawnMovesNoOther(st: State, w: NodeId, rest: seq<NodeId>)
    requires st.phase == Spawning([w] + rest) && w in st.s && st.s[w].Ready?
    ensures var r := Spawned(st, w, rest);
            && KeepsFinished(st.s, r.s) && (forall v :: v in st.s ==> r.s[v] == st.s[v] || !r.s[v].IsTerminal())
            && !st.phase.IsSwept() && !r.phase.IsSwept() && forall v :: InFlight(r, v) ==> InFlight(st, v)
  {
    forall v | InFlight(Spawned(st, w, rest), v) ensures InFlight(st, v) {
      assert v in [w] + rest <==> v == w || v in rest;
    }
  }

  lemma SpawnExplained(c: Config, rank: map<NodeId, nat>, st: State, hit: set<NodeId>, w: NodeId, rest: seq<NodeId>)
    requires Inv(c, st) && Ranked(c.edges, rank) && RunExplained(c, rank, st, hit)
    requires st.phase == Spawning([w] + rest) && w in st.s
    ensures RunExplained(c, rank, Spawned(st, w, rest), hit)
  {
    hide Inv, Ranked, RunExplained, InFlight, KeepsFinished, Spawned, Shaped;
    SpawnOneKeeps(c, st, w, rest);
    ShapedBoth(c, st, Spawned(st, w, rest));
    NextIsReady(c, st, w, rest);
    SpawnMovesNoOther(st, w, rest);
    UnfinishedStepExplained(c, rank, st, hit, Spawned(st, w, rest));
  }

  lemma FinishExplained(
      c: Config, rank: map<NodeId, nat>, st: State, hit: set<NodeId>, r: State, w: NodeId, end: NodeState,
      more: set<NodeId>)
    requires Inv(c, st) && Ranked(c.edges, rank) && RunExplained(c, rank, st, hit) && Shaped(c, r)
    requires Finishes(c, st, r, w, end) && !st.phase.IsSwept() && c.init[w].Pending?
    requires end == Cancelled || ((end == Succeeded || end == Failed) && end == c.Work(w))
    requires more == hit + if end == Cancelled then {w} else {}
    ensures RunExplained(c, rank, r, more)
  {
    hide Final, NodesOk, OnlyAdmitted, HasCycle, Ranked, StatesExplained, CancelledAreHit, AgreesSoFar, PhaseOk;
    hide SkipAll, OthersKept, HitsWouldWork, AsFinalOrCancelled;
    UnsweptKeepsOthers(c, st);
    assert InFlight(st, w);
    EndExplained(c, rank, st.s, hit, w, end, more);
    HitAdded(c, rank, st.s, hit, w, end, more);
  }

  lemma HitAdded(
      c: Config, rank: map<NodeId, nat>, s: States, hit: set<NodeId>, w: NodeId, end: NodeState, more: set<NodeId>)
    requires c.Proper() && Ranked(c.edges, rank) && s.Keys == c.init.Keys && HitsWouldWork(c, rank, s, hit)
    requires w in s && c.init[w].Pending? && !s[w].IsTerminal() && end.IsTerminal()
    requires Final(c.edges, rank, c.init, WorkOf(c), w) == c.Work(w)
    requires more == hit + if end == Cancelled then {w} else {}
    ensures HitsWouldWork(c, rank, MarkedComplete(c.edges, s, w, end), more)
  {
    hide Final, SkipAll;
    SkipAllKeepsFinished(c.edges, s[w := end]);
  }

  /** The end a task records is its work's, or its cancellation. */
  lemma RecordedIsWork(c: Config, st: State, v: NodeId)
    requires Inv(c, st) && v in st.tasks && (st.tasks[v].Deciding? || st.tasks[v].Panicked?)
    ensures var end := if st.tasks[v].Panicked? then Failed else st.tasks[v].end;
            end == Cancelled || ((end == Succeeded || end == Failed) && end == c.Work(v))
    ensures st.s[v].Running? ==> !st.phase.IsSwept()
  {
    TaskIsOk(c, st, v);
  }

  lemma AppliedRecord(c: Config, st: State, v: NodeId)
    requires Covers(c.edges, st.s) && Enabled(c, st, Record(v))
    ensures v in st.tasks && v in st.s && st.tasks[v].Deciding?
    ensures Apply(c, st, Record(v)) ==
            st.(s := if st.s[v].Cancelled? then st.s else MarkedComplete(c.edges, st.s, v, st.tasks[v].end),
                tasks := st.tasks[v := Recorded])
  {
    hide Covers, MarkedComplete;
  }

  /** A node that the sweep got to first is only marked as recorded. */
  lemma RecordMarks(c: Config, st: State, v: NodeId)
    requires Covers(c.edges, st.s) && Enabled(c, st, Record(v)) && st.s[v].Cancelled?
    ensures var r := Apply(c, st, Record(v));
            && r.s == st.s && r.phase == st.phase && r.cancelled == st.cancelled && r.tasks.Keys == st.tasks.Keys
    ensures HitBy(st, Record(v)) == {}
  {
    hide Covers, MarkedComplete, Enabled, Apply;
    AppliedRecord(c, st, v);
  }

  /** Any other one is finished. */
  lemma RecordFinishes(c: Config, st: State, v: NodeId)
    requires Covers(c.edges, st.s) && Enabled(c, st, Record(v)) && st.s[v].Running? && st.tasks[v].end.IsTerminal()
    ensures Finishes(c, st, Apply(c, st, Record(v)), v, st.tasks[v].end)
    ensures HitBy(st, Record(v)) == if st.tasks[v].end == Cancelled then {v} else {}
  {
    hide Covers, MarkedComplete, Enabled, Apply;
    AppliedRecord(c, st, v);
  }

  lemma RecordExplained(c: Config, rank: map<NodeId, nat>, st: State, hit: set<NodeId>, v: NodeId)
    requires Inv(c, st) && Ranked(c.edges, rank) && RunExplained(c, rank, st, hit)
    requires Enabled(c, st, Record(v)) && Shaped(c, Apply(c, st, Record(v)))
    ensures RunExplained(c, rank, Apply(c, st, Record(v)), hit + HitBy(st, Record(v)))
  {
    hide Inv, Ranked, RunExplained, Finishes, HitBy, Covers, Shaped, Enabled, Apply;
    ShapeHolds(c, st);
    ShapedBoth(c, st, st);
    AppliedRecord(c, st, v);
    EndIsRecordable(c, st, v);
    RecordedIsWork(c, st, v);
    var r, more := Apply(c, st, Record(v)), hit + HitBy(st, Record(v));
    if st.s[v].Cancelled? {
      RecordMarks(c, st, v);
      assert more == hit;
      SameStatesExplained(c, rank, st, hit, r);
    } else {
      RecordFinishes(c, st, v);
      FinishExplained(c, rank, st, hit, r, v, st.tasks[v].end, more);
    }
  }

  lemma JoinExplained(c: Config, rank: map<NodeId, nat>, st: State, hit: set<NodeId>, v: NodeId)
    requires Inv(c, st) && Ranked(c.edges, rank) && RunExplained(c, rank, st, hit)
    requires Enabled(c, st, Action.Join(v))
    ensures Shaped(c, Apply(c, st, Action.Join(v))) && RunExplained(c, rank, Apply(c, st, Action.Join(v)), hit)
  {
    hide Final, NodesOk, OnlyAdmitted, HasCycle, Ranked, StatesExplained, HitsWouldWork, CancelledAreHit;
    hide AgreesSoFar, PhaseOk, SkipAll, RestOk;
    var r := Apply(c, st, Action.Join(v));
    if st.tasks[v].Panicked? {
      EndIsRecordable(c, st, v);
      RecordedIsWork(c, st, v);
      JoinedNodeRuns(c, st, v);
      FinishExplained(c, rank, st, hit, r, v, Failed, hit);
    } else {
      SameStatesExplained(c, rank, st, hit, r);
    }
  }

  /** Without a cancellation the sweep leaves every node as the meaning says, or cancelled. */
  lemma SweptAgrees(c: Config, rank: map<NodeId, nat>, st: State)
    requires Inv(c, st) && Ranked(c.edges, rank) && !st.phase.IsSwept() && !st.cancelled
    ensures AsFinalOrCancelled(c, rank, CancelRemaining(st.s))
  {
    hide Final, NodesOk, OnlyAdmitted, HasCycle, Ranked, PhaseOk, Pendings;
    assert Agrees(c.edges, rank, c.init, WorkOf(c), st.s);
  }

  lemma CancelRemainingMoves(s: States)
    ensures var r := CancelRemaining(s);
            KeepsFinished(s, r) && forall v :: v in s ==> r[v] == s[v] || !r[v].IsTerminal() || r[v].Cancelled?
  {
  }

  lemma SweepExplained(c: Config, rank: map<NodeId, nat>, st: State, hit: set<NodeId>, r: State)
    requires Inv(c, st) && Shaped(c, r) && Ranked(c.edges, rank) && RunExplained(c, rank, st, hit)
    requires !st.phase.IsSwept() && r == st.(s := CancelRemaining(st.s), phase := r.phase) && r.phase.IsSwept()
    ensures RunExplained(c, rank, r, hit)
  {
    hide Final, Inv, Ranked, StatesExplained, HitsWouldWork, CancelledAreHit, AsFinalOrCancelled, KeepsFinished,
         CancelRemaining;
    ShapedBoth(c, st, st);
    CancelRemainingMoves(st.s);
    UnfinishedExplained(c, rank, st.s, CancelRemaining(st.s), hit);
    if !st.cancelled {
      SweptAgrees(c, rank, st);
    }
  }

  lemma SpawnStepExplained(c: Config, rank: map<NodeId, nat>, st: State, hit: set<NodeId>)
    requires Inv(c, st) && Ranked(c.edges, rank) && RunExplained(c, rank, st, hit) && Enabled(c, st, Action.Spawn)
    requires Shaped(c, Apply(c, st, Action.Spawn))
    ensures RunExplained(c, rank, Apply(c, st, Action.Spawn), hit)
  {
    hide Inv, Ranked, RunExplained, SkipAll, IsWave, HasOutputEdge, Holders, InFlight, Shaped, Covers, AfterCall,
         ProgressOf, AllReady, MarkedComplete;
    ShapeHolds(c, st);
    var r := Apply(c, st, Action.Spawn);
    if st.phase.rest == [] {
      OtherStepsKeepStates(c, st, Action.Spawn);
      ShapedBoth(c, st, st);
      SameStatesExplained(c, rank, st, hit, r);
    } else {
      assert st.phase.rest == [st.phase.rest[0]] + st.phase.rest[1..];
      assert st.phase.rest[0] in st.phase.rest;
      SpawnExplained(c, rank, st, hit, st.phase.rest[0], st.phase.rest[1..]);
    }
  }

  /** Every step keeps the explanations. */
  lemma StepExplained(c: Config, rank: map<NodeId, nat>, st: State, hit: set<NodeId>, a: Action)
    requires Inv(c, st) && Ranked(c.edges, rank) && RunExplained(c, rank, st, hit) && Enabled(c, st, a)
    ensures Shaped(c, Apply(c, st, a)) && RunExplained(c, rank, Apply(c, st, a), hit + HitBy(st, a))
  {
    hide Inv, Ranked, RunExplained, Shaped, Covers, Enabled, Apply;
    ShapeHolds(c, st);
    StepKeeps(c, st, a);
    ShapedBoth(c, st, Apply(c, st, a));
    assert !a.Record? ==> hit + HitBy(st, a) == hit;
    match a {
      case Plan(wave) => PlanStepExplained(c, rank, st, hit, wave);
      case Check => CheckStepExplained(c, rank, st, hit);
      case Mark => MarkStepExplained(c, rank, st, hit);
      case Sweep => SweepStepExplained(c, rank, st, hit);
      case Spawn => SpawnStepExplained(c, rank, st, hit);
      case Join(v) => JoinExplained(c, rank, st, hit, v);
      case Record(v) => RecordExplained(c, rank, st, hit, v);
      case _ => OtherStepExplained(c, rank, st, hit, a);
    }
  }

  lemma PlanStepExplained(c: Config, rank: map<NodeId, nat>, st: State, hit: set<NodeId>, wave: seq<NodeId>)
    requires Inv(c, st) && Ranked(c.edges, rank) && RunExplained(c, rank, st, hit) && Enabled(c, st, Action.Plan(wave))
    requires Shaped(c, Apply(c, st, Action.Plan(wave)))
    ensures RunExplained(c, rank, Apply(c, st, Action.Plan(wave)), hit)
  {
    hide Inv, Ranked, RunExplained, SkipAll, IsWave, HasOutputEdge, Holders, InFlight, Shaped, Covers, AfterCall,
         ProgressOf, AllReady, MarkedComplete;
    ShapeHolds(c, st);
    PlanExplained(c, rank, st, hit, Apply(c, st, Action.Plan(wave)).phase);
  }

  lemma CheckStepExplained(c: Config, rank: map<NodeId, nat>, st: State, hit: set<NodeId>)
    requires Inv(c, st) && Ranked(c.edges, rank) && RunExplained(c, rank, st, hit) && Enabled(c, st, Action.Check)
    requires Shaped(c, Apply(c, st, Action.Check))
    ensures RunExplained(c, rank, Apply(c, st, Action.Check), hit)
  {
    hide Inv, Ranked, RunExplained, SkipAll, IsWave, HasOutputEdge, Holders, InFlight, Shaped, Covers, AfterCall,
         ProgressOf, AllReady, MarkedComplete;
    ShapeHolds(c, st);
    CheckExplained(c, rank, st, hit);
  }

  lemma MarkStepExplained(c: Config, rank: map<NodeId, nat>, st: State, hit: set<NodeId>)
    requires Inv(c, st) && Ranked(c.edges, rank) && RunExplained(c, rank, st, hit) && Enabled(c, st, Action.Mark)
    requires Shaped(c, Apply(c, st, Action.Mark))
    ensures RunExplained(c, rank, Apply(c, st, Action.Mark), hit)
  {
    hide Inv, Ranked, RunExplained, SkipAll, IsWave, HasOutputEdge, Holders, InFlight, Shaped, Covers, AfterCall,
         ProgressOf, AllReady, MarkedComplete;
    ShapeHolds(c, st);
    MarkExplained(c, rank, st, hit);
  }

  lemma SweepStepExplained(c: Config, rank: map<NodeId, nat>, st: State, hit: set<NodeId>)
    requires Inv(c, st) && Ranked(c.edges, rank) && RunExplained(c, rank, st, hit) && Enabled(c, st, Action.Sweep)
    requires Shaped(c, Apply(c, st, Action.Sweep))
    ensures RunExplained(c, rank, Apply(c, st, Action.Sweep), hit)
  {
    hide Inv, Ranked, RunExplained, SkipAll, IsWave, HasOutputEdge, Holders, InFlight, Shaped, Covers, AfterCall,
         ProgressOf, AllReady, MarkedComplete;
    ShapeHolds(c, st);
    SweepExplained(c, rank, st, hit, Apply(c, st, Action.Sweep));
  }

  lemma OtherStepExplained(c: Config, rank: map<NodeId, nat>, st: State, hit: set<NodeId>, a: Action)
    requires Inv(c, st) && Ranked(c.edges, rank) && RunExplained(c, rank, st, hit) && Enabled(c, st, a)
    requires !a.Plan? && !a.Check? && !a.Mark? && !a.Spawn? && !a.Join? && !a.Record? && !a.Sweep?
    requires Shaped(c, Apply(c, st, a))
    ensures RunExplained(c, rank, Apply(c, st, a), hit)
  {
    hide Inv, Ranked, RunExplained, InFlight, Shaped, Covers, Enabled, Apply;
    ShapeHolds(c, st);
    ShapedBoth(c, st, st);
    OtherStepsKeepStates(c, st, a);
    SameStatesExplained(c, rank, st, hit, Apply(c, st, a));
  }

  /** The other steps change no node state and put no other node in flight. */
  lemma OtherStepsKeepStates(c: Config, st: State, a: Action)
    requires Covers(c.edges, st.s) && Enabled(c, st, a)
    requires a.Spawn? ==> st.phase.rest == []
    requires !a.Plan? && !a.Check? && !a.Mark? && !a.Join? && !a.Record? && !a.Sweep?
    ensures var r := Apply(c, st, a);
            && r.s == st.s && (forall v :: InFlight(r, v) ==> InFlight(st, v))
            && (r.phase.IsSwept() <==> st.phase.IsSwept()) && (st.cancelled ==> r.cancelled)
  {
    hide Covers, HasOutputEdge, Holders, AfterCall, ProgressOf;
  }

  lemma ShapedBoth(c: Config, st: State, r: State)
    requires Inv(c, st) && Inv(c, r)
    ensures Shaped(c, st) && Shaped(c, r) && Covers(c.edges, st.s)
  {
  }

  lemma {:induction false} RunIsExplained(
      c: Config, rank: map<NodeId, nat>, run: seq<State>, steps: seq<Action>, i: nat)
    requires IsRun(c, run, steps) && Ranked(c.edges, rank) && i < |run|
    ensures Shaped(c, run[i]) && RunExplained(c, rank, run[i], Hits(run, steps, i))
  {
    hide Inv, Enabled, Ranked, RunExplained, Shaped, HitBy;
    if i == 0 {
      StartExplained(c, rank);
    } else {
      RunKeepsInv(c, run, steps, i - 1);
      RunIsExplained(c, rank, run, steps, i - 1);
      assert IsStep(c, run[i - 1], steps[i - 1], run[i - 1 + 1]);
      StepExplained(c, rank, run[i - 1], Hits(run, steps, i - 1), steps[i - 1]);
    }
  }

  /** What holds of node `v` when a run is over, however it ended, in which tasks cancelled
      the nodes of `hit`. */
  ghost predicate EndsExplained(
      c: Config, rank: map<NodeId, nat>, s: States, calls: map<NodeId, nat>, hit: set<NodeId>, v: NodeId)
    requires c.Proper() && Ranked(c.edges, rank) && v in c.init && v in s && v in calls
  {
    && s[v].IsTerminal() && NodeExplained(c, rank, s, hit, v)
    && (v in hit ==> s[v].Cancelled? && c.init[v].Pending? && Final(c.edges, rank, c.init, WorkOf(c), v) == c.Work(v))
    && (!c.init[v].Pending? ==> s[v] == Closed(c.init[v]) && calls[v] == 0)
    && (c.init[v].Pending? && (s[v].Succeeded? || s[v].Failed?) ==> calls[v] == c.Calls(v))
    && (s[v].Skipped? ==> calls[v] == 0)
    && calls[v] <= c.retries(v) + 1
  }

  lemma OthersMeanThemselves(c: Config, rank: map<NodeId, nat>, v: NodeId)
    requires c.Proper() && Ranked(c.edges, rank) && v in c.init && !c.init[v].Pending?
    ensures Final(c.edges, rank, c.init, WorkOf(c), v) == c.init[v]
  {
  }

  lemma SweptIsExplained(c: Config, rank: map<NodeId, nat>, st: State, hit: set<NodeId>, v: NodeId)
    requires Inv(c, st) && Ranked(c.edges, rank) && RunExplained(c, rank, st, hit) && st.phase.IsSwept() && v in c.init
    ensures EndsExplained(c, rank, st.s, st.calls, hit, v)
  {
    hide AgreesSoFar, OnlyAdmitted, PhaseOk, HasCycle, Ranked, BelowHit, AsFinalOrCancelled, InFlight, Final;
    if !c.init[v].Pending? {
      OthersMeanThemselves(c, rank, v);
    }
    assert NodeOk(c, v, st.s[v], TaskAt(st.tasks, v), st.calls[v], st.cancelled, StageOf(st.phase));
  }

  /** In every run that has ended, other than by refusing the graph: each node that
      succeeded or failed is as the meaning of the graph says, with exactly the calls its
      work takes; each skipped node is so, or was skipped, over others that were, for a node
      that its own task cancelled and that would otherwise have ended by its work; and
      without a cancellation every node is as the meaning says or cancelled. */
  lemma EndedRunIsExplained(c: Config, run: seq<State>, steps: seq<Action>, rank: map<NodeId, nat>, v: NodeId)
    requires IsRun(c, run, steps) && Ranked(c.edges, rank) && v in c.init
    requires run[|run| - 1].phase.IsSwept()
    ensures var last := run[|run| - 1];
            && v in last.s && v in last.calls
            && EndsExplained(c, rank, last.s, last.calls, Hits(run, steps, |steps|), v)
            && (Cancel !in steps ==>
                  last.s[v] == Final(c.edges, rank, c.init, WorkOf(c), v) || last.s[v] == Cancelled)
  {
    hide Inv, Enabled, Ranked, EndsExplained, StatesExplained, HitBy;
    RunKeepsInv(c, run, steps, |run| - 1);
    RunIsExplained(c, rank, run, steps, |run| - 1);
    SweptIsExplained(c, rank, run[|run| - 1], Hits(run, steps, |steps|), v);
    StopsAreJustified(c, run, steps, |run| - 1);
    assert steps[..|run| - 1] == steps;
  }

  // ----- A cancellation inside a wave -----

  /** Two nodes, the second of which depends on the first, with work that succeeds. */
  ghost function TwoNodes(): Config {
    Config([Edge(0, 1, DependsOn, None, 0)], map[0 := Pending, 1 := Pending],
           (v: NodeId, k: nat) => Completes, (v: NodeId) => 0, None, false)
  }

  lemma TwoNodesAreProper()
    ensures TwoNodes().Proper() && Ranked(TwoNodes().edges, map[0 := 0, 1 := 1])
  {
    var c := TwoNodes();
    assert c.edges[0] in c.edges;
    RankedHasNoCycle(c.edges, map[0 := 0, 1 := 1]);
  }

  lemma BothWouldSucceed()
    ensures TwoNodes().Proper() && Ranked(TwoNodes().edges, map[0 := 0, 1 := 1])
    ensures Final(TwoNodes().edges, map[0 := 0, 1 := 1], TwoNodes().init, WorkOf(TwoNodes()), 1) == Succeeded
  {
    TwoNodesAreProper();
    var c, rank := TwoNodes(), map[0 := 0, 1 := 1];
    assert c.Work(0) == Succeeded && c.Work(1) == Succeeded;
    assert Final(c.edges, rank, c.init, WorkOf(c), 0) == Succeeded;
  }

  lemma FirstWaveOfTwo()
    ensures var c := TwoNodes();
            && Covers(c.edges, c.init) && SkipAll(c.edges, c.init) == c.init && IsWave(c.edges, c.init, c.limit, [0])
  {
    var c := TwoNodes();
    TwoNodesAreProper();
    assert c.edges[0] in c.edges;
    assert SkipRound(c.edges, c.init) == c.init;
    assert IsReady(c.edges, c.init, 0) && !IsReady(c.edges, c.init, 1);
  }

  lemma SecondOfTwoIsSkipped(s: States)
    requires s == map[0 := Cancelled, 1 := Pending]
    ensures Covers(TwoNodes().edges, s) && SkipAll(TwoNodes().edges, s) == map[0 := Cancelled, 1 := Skipped]
  {
    var edges := TwoNodes().edges;
    assert edges[0] in edges && Refuses(s, edges[0]);
    var r := SkipRound(edges, s);
    assert Impossible(edges, s, 1) && r == map[0 := Cancelled, 1 := Skipped];
    assert SkipRound(edges, r) == r;
  }

  /** One step of a run in the making. */
  lemma Then(c: Config, run: seq<State>, steps: seq<Action>, a: Action, r: State)
    requires IsRun(c, run, steps) && IsStep(c, run[|run| - 1], a, r)
    ensures IsRun(c, run + [r], steps + [a])
  {
    OneStepMore(c, run, steps, a);
  }

  /** The state in the middle of the wave of the first node. */
  ghost function MidWave(x: NodeState, tasks: map<NodeId, Task>, phase: Phase, cancelled: bool): State {
    State(phase, map[0 := x, 1 := Pending], tasks, map[0 := 0, 1 := 0], cancelled, 0)
  }

  lemma EmptyRun()
    ensures IsRun(TwoNodes(), [Start(TwoNodes())], [])
    ensures Start(TwoNodes()) == MidWave(Pending, map[], Entering, false) && !HasOutputEdge(TwoNodes().edges)
  {
    TwoNodesAreProper();
  }

  lemma UpToTheMark() returns (run: seq<State>, steps: seq<Action>)
    ensures IsRun(TwoNodes(), run, steps)
    ensures run[|run| - 1] == MidWave(Pending, map[], Marking([0]), false)
  {
    hide IsRun, SkipAll, IsWave, HasOutputEdge;
    var c := TwoNodes();
    EmptyRun();
    FirstWaveOfTwo();
    run, steps := [Start(c)], [];
    Then(c, run, steps, Enter, MidWave(Pending, map[], Planning, false));
    run, steps := run + [MidWave(Pending, map[], Planning, false)], steps + [Enter];
    Then(c, run, steps, Plan([0]), MidWave(Pending, map[], Checking([0]), false));
    run, steps := run + [MidWave(Pending, map[], Checking([0]), false)], steps + [Plan([0])];
    Then(c, run, steps, Check, MidWave(Pending, map[], Marking([0]), false));
    run, steps := run + [MidWave(Pending, map[], Marking([0]), false)], steps + [Check];
  }

  lemma SpawnOfTwo()
    ensures IsStep(TwoNodes(), MidWave(Ready, map[], Spawning([0]), false), Spawn,
                   MidWave(Running, map[0 := Waiting], Spawning([]), false))
  {
    TwoNodesAreProper();
    assert map[0 := Ready, 1 := Pending][0 := Running] == map[0 := Running, 1 := Pending];
    assert [0][1..] == [];
  }

  lemma RecordOfTwo()
    ensures IsStep(TwoNodes(), MidWave(Running, map[0 := Deciding(Cancelled)], Joining, true), Record(0), AfterRecord())
  {
    hide SkipAll;
    TwoNodesAreProper();
    SecondOfTwoIsSkipped(map[0 := Cancelled, 1 := Pending]);
    assert map[0 := Running, 1 := Pending][0 := Cancelled] == map[0 := Cancelled, 1 := Pending];
  }

  ghost function AfterRecord(): State {
    State(Joining, map[0 := Cancelled, 1 := Skipped], map[0 := Recorded], map[0 := 0, 1 := 0], true, 0)
  }

  lemma UpToTheTask() returns (run: seq<State>, steps: seq<Action>)
    ensures IsRun(TwoNodes(), run, steps)
    ensures run[|run| - 1] == MidWave(Running, map[0 := Waiting], Joining, false)
  {
    hide IsRun, SkipAll, IsWave, HasOutputEdge;
    var c := TwoNodes();
    TwoNodesAreProper();
    run, steps := UpToTheMark();
    Then(c, run, steps, Mark, MidWave(Ready, map[], Spawning([0]), false));
    run, steps := run + [MidWave(Ready, map[], Spawning([0]), false)], steps + [Mark];
    SpawnOfTwo();
    Then(c, run, steps, Spawn, MidWave(Running, map[0 := Waiting], Spawning([]), false));
    run, steps := run + [MidWave(Running, map[0 := Waiting], Spawning([]), false)], steps + [Spawn];
    Then(c, run, steps, Spawn, MidWave(Running, map[0 := Waiting], Joining, false));
    run, steps := run + [MidWave(Running, map[0 := Waiting], Joining, false)], steps + [Spawn];
  }

  lemma UpToTheCall() returns (run: seq<State>, steps: seq<Action>)
    ensures IsRun(TwoNodes(), run, steps)
    ensures run[|run| - 1] == MidWave(Running, map[0 := Attempting(0)], Joining, false)
  {
    hide IsRun, SkipAll, IsWave, HasOutputEdge;
    TwoNodesAreProper();
    run, steps := UpToTheTask();
    Then(TwoNodes(), run, steps, Acquire(0), MidWave(Running, map[0 := Attempting(0)], Joining, false));
    run, steps := run + [MidWave(Running, map[0 := Attempting(0)], Joining, false)], steps + [Acquire(0)];
  }

  lemma UpToTheCancellation() returns (run: seq<State>, steps: seq<Action>)
    ensures IsRun(TwoNodes(), run, steps)
    ensures run[|run| - 1] == MidWave(Running, map[0 := Deciding(Cancelled)], Joining, true)
  {
    hide IsRun, SkipAll, IsWave, HasOutputEdge, Holders;
    var c := TwoNodes();
    TwoNodesAreProper();
    run, steps := UpToTheCall();
    Then(c, run, steps, Cancel, MidWave(Running, map[0 := Attempting(0)], Joining, true));
    run, steps := run + [MidWave(Running, map[0 := Attempting(0)], Joining, true)], steps + [Cancel];
    Then(c, run, steps, Notice(0), MidWave(Running, map[0 := Deciding(Cancelled)], Joining, true));
    run, steps := run + [MidWave(Running, map[0 := Deciding(Cancelled)], Joining, true)], steps + [Notice(0)];
  }

  /** A token cancelled during a wave: the running task records its cancellation, which
      skips a dependent that would have succeeded. So a node can end skipped, though the
      meaning of the graph says otherwise, below a cancelled one. */
  lemma CancellationSkipsADependent() returns (run: seq<State>, steps: seq<Action>)
    ensures IsRun(TwoNodes(), run, steps) && run[|run| - 1].phase == Ended(Stopped(TokenCancelled))
    ensures 1 in run[|run| - 1].s && run[|run| - 1].s[1] == Skipped
    ensures TwoNodes().Proper() && Ranked(TwoNodes().edges, map[0 := 0, 1 := 1])
    ensures Final(TwoNodes().edges, map[0 := 0, 1 := 1], TwoNodes().init, WorkOf(TwoNodes()), 1) == Succeeded
  {
    hide IsRun, SkipAll;
    var c := TwoNodes();
    BothWouldSucceed();
    run, steps := UpToTheCancellation();
    RecordOfTwo();
    var recorded := AfterRecord();
    Then(c, run, steps, Record(0), recorded);
    run, steps := StopsThere(c, run + [recorded], steps + [Record(0)]);
  }

  /** From there the driver notices, aborts the task and sweeps. */
  lemma StopsThere(c: Config, begun: seq<State>, taken: seq<Action>) returns (run: seq<State>, steps: seq<Action>)
    requires c == TwoNodes() && IsRun(c, begun, taken) && begun != [] && begun[|begun| - 1] == AfterRecord()
    ensures IsRun(c, run, steps) && run != []
    ensures run[|run| - 1].phase == Ended(Stopped(TokenCancelled)) && run[|run| - 1].s == AfterRecord().s
  {
    hide IsRun, SkipAll;
    var recorded := AfterRecord();
    run, steps := begun, taken;
    var stopping := recorded.(phase := Stopping(TokenCancelled));
    Then(c, run, steps, Interrupt, stopping);
    run, steps := run + [stopping], steps + [Interrupt];
    Then(c, run, steps, Abort(0), stopping.(tasks := map[]));
    run, steps := run + [stopping.(tasks := map[])], steps + [Abort(0)];
    var ended := recorded.(phase := Ended(Stopped(TokenCancelled)), tasks := map[]);
    assert CancelRemaining(recorded.s) == recorded.s;
    Then(c, run, steps, Sweep, ended);
    run, steps := run + [ended], steps + [Sweep];
  }
}
