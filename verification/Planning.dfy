/** Wave planning on state maps: the plan the scheduler computes, and what it covers. */
module Planning {
  import opened Prelude
  import opened Nodes
  import opened Edges
  import opened Topology
  import opened Propagation
  import opened Outcomes
  import opened Ordering

  /** The fixed surroundings of a planning run. */
  ghost predicate Plannable(m: map<NodeId, Node>, edges: seq<Edge>, s: States, order: seq<NodeId>) {
    && Covers(edges, s) && m.Keys == s.Keys
    && Distinct(order) && Elements(order) == s.Keys
  }

  /** The ready nodes of `order`, in that order. */
  function ReadyList(order: seq<NodeId>, edges: seq<Edge>, s: States): (ready: seq<NodeId>)
    requires Covers(edges, s) && forall v :: v in order ==> v in s
    ensures forall v :: v in ready <==> v in order && IsReady(edges, s, v)
  {
    if order == [] then []
    else (if IsReady(edges, s, order[0]) then [order[0]] else []) + ReadyList(order[1..], edges, s)
  }

  lemma {:induction false} ReadyListDistinct(order: seq<NodeId>, edges: seq<Edge>, s: States)
    requires Covers(edges, s) && (forall v :: v in order ==> v in s) && Distinct(order)
    ensures Distinct(ReadyList(order, edges, s))
  {
    if order != [] {
      ReadyListDistinct(order[1..], edges, s);
    }
  }

  function Truncate<T>(xs: seq<T>, limit: Option<nat>): (r: seq<T>) {
    if limit.Some? && limit.value < |xs| then xs[..limit.value] else xs
  }

  /** The next wave: the ready nodes, sorted, cut to the concurrency limit. */
  function NextWave(m: map<NodeId, Node>, edges: seq<Edge>, s: States, order: seq<NodeId>, limit: Option<nat>)
    : (wave: seq<NodeId>)
    requires Plannable(m, edges, s, order)
  {
    OrderedNodesExist(m, edges, s, order);
    Truncate(SortReady(m, ReadyList(order, edges, s)), limit)
  }

  lemma OrderedNodesExist(m: map<NodeId, Node>, edges: seq<Edge>, s: States, order: seq<NodeId>)
    requires Plannable(m, edges, s, order)
    ensures forall v :: v in order <==> v in s
  {
    assert forall v :: v in Elements(order) <==> v in s.Keys;
  }

  /** A wave as planning and execution use it: ready nodes, none twice, at most the
      limit, and none only when nothing is ready. */
  ghost predicate IsWave(edges: seq<Edge>, s: States, limit: Option<nat>, wave: seq<NodeId>)
    requires Covers(edges, s)
  {
    && Distinct(wave)
    && (forall v :: v in wave ==> v in s && IsReady(edges, s, v))
    && (limit.Some? ==> |wave| <= limit.value)
    && (wave == [] && limit != Some(0) ==> forall v :: v in s ==> !IsReady(edges, s, v))
    && (limit.None? ==> forall v :: v in s && IsReady(edges, s, v) ==> v in wave)
  }

  lemma NextWaveIsWave(m: map<NodeId, Node>, edges: seq<Edge>, s: States, order: seq<NodeId>, limit: Option<nat>)
    requires Plannable(m, edges, s, order)
    ensures IsWave(edges, s, limit, NextWave(m, edges, s, order, limit))
  {
    hide IsReady, IsWave;
    OrderedNodesExist(m, edges, s, order);
    ReadyListDistinct(order, edges, s);
    SortReadyOrders(m, ReadyList(order, edges, s));
    TruncatedIsWave(edges, s, limit, SortReady(m, ReadyList(order, edges, s)));
  }

  /** Any listing of the ready nodes, cut to the limit, is a wave. */
  lemma TruncatedIsWave(edges: seq<Edge>, s: States, limit: Option<nat>, ready: seq<NodeId>)
    requires Covers(edges, s) && Distinct(ready)
    requires forall v :: v in ready <==> v in s && IsReady(edges, s, v)
    ensures IsWave(edges, s, limit, Truncate(ready, limit))
  {
    hide IsReady;
    var wave := Truncate(ready, limit);
    forall v | v in wave ensures v in ready {
      var i :| 0 <= i < |wave| && wave[i] == v;
      assert ready[i] == v;
    }
    if wave == [] && limit != Some(0) {
      assert ready == [];
    }
  }

  // ----- Which ready nodes a wave takes -----

  /** Node `a` goes before `b`: by priority, and by name where priorities are equal. */
  ghost predicate GoesBefore(m: map<NodeId, Node>, a: NodeId, b: NodeId)
    requires a in m && b in m
  {
    || m[a].priority > m[b].priority
    || (m[a].priority == m[b].priority && Lexicographic(m[a].name, m[b].name))
  }

  /** Of the nodes that are ready in `s` the wave takes the first ones, as many as the limit
      admits, in order: each goes before those after it, and before those left out. */
  ghost predicate TakesFirst(m: map<NodeId, Node>, edges: seq<Edge>, s: States, limit: Option<nat>, wave: seq<NodeId>)
    requires Covers(edges, s)
  {
    && (forall v :: v in wave ==> v in s && v in m && IsReady(edges, s, v))
    && (forall i, j :: 0 <= i < j < |wave| ==> GoesBefore(m, wave[i], wave[j]))
    && (forall u, v :: u in wave && v in s && v in m && IsReady(edges, s, v) && v !in wave ==> GoesBefore(m, u, v))
    && ((exists v :: v in s && IsReady(edges, s, v) && v !in wave) ==> limit == Some(|wave|))
  }

  lemma NextWaveTakesFirst(
      m: map<NodeId, Node>, edges: seq<Edge>, s: States, order: seq<NodeId>, limit: Option<nat>)
    requires Plannable(m, edges, s, order)
    ensures TakesFirst(m, edges, s, limit, NextWave(m, edges, s, order, limit))
  {
    hide IsReady, AtMost;
    OrderedNodesExist(m, edges, s, order);
    var ready := ReadyList(order, edges, s);
    SortReadyOrders(m, ready);
    SortedTakesFirst(m, edges, s, limit, SortReady(m, ready));
  }

  lemma SortedTakesFirst(m: map<NodeId, Node>, edges: seq<Edge>, s: States, limit: Option<nat>, sorted: seq<NodeId>)
    requires Covers(edges, s) && m.Keys == s.Keys && (forall v :: v in sorted <==> v in s && IsReady(edges, s, v))
    requires Ordered(m, sorted)
    ensures TakesFirst(m, edges, s, limit, Truncate(sorted, limit))
  {
    hide IsReady, GoesBefore;
    var wave := Truncate(sorted, limit);
    forall i, j | 0 <= i < j < |sorted| ensures GoesBefore(m, sorted[i], sorted[j]) {
      OrderedGoesBefore(m, sorted, i, j);
    }
    forall v | v in wave ensures v in sorted {
      var i :| 0 <= i < |wave| && wave[i] == v;
      assert sorted[i] == v;
    }
    forall j | 0 <= j < |wave| ensures sorted[j] in wave {
      assert wave[j] == sorted[j];
    }
    forall u, v | u in wave && v in sorted && v !in wave ensures GoesBefore(m, u, v) {
      var i, j :| 0 <= i < |wave| && wave[i] == u && 0 <= j < |sorted| && sorted[j] == v;
      assert sorted[i] == u;
    }
  }

  lemma OrderedGoesBefore(m: map<NodeId, Node>, sorted: seq<NodeId>, i: nat, j: nat)
    requires (forall v :: v in sorted ==> v in m) && Ordered(m, sorted) && i < j < |sorted|
    ensures GoesBefore(m, sorted[i], sorted[j])
  {
    hide Lexicographic;
    assert AtMost(m, sorted[i], sorted[j]);
    NamesAreLexicographic(m[sorted[i]].name, m[sorted[j]].name);
  }

  /** Completes the nodes of a wave as succeeded, one after the other. */
  function AfterWave(edges: seq<Edge>, s: States, wave: seq<NodeId>): (r: States)
    requires Covers(edges, s) && forall v :: v in wave ==> v in s
    ensures r.Keys == s.Keys
    decreases |wave|
  {
    if wave == [] then s else AfterWave(edges, SkipAll(edges, s[wave[0] := Succeeded]), wave[1..])
  }

  /** What completing a wave does: its nodes succeed, finished nodes stay as they
      are, other pending nodes stay or are skipped, and nothing impossible is left. */
  ghost predicate WaveCompleted(edges: seq<Edge>, s: States, wave: seq<NodeId>, r: States)
    requires Covers(edges, s) && r.Keys == s.Keys
  {
    && KeepsFinished(s, r)
    && (forall v :: v in wave && v in s ==> r[v] == Succeeded)
    && (forall v :: v in s && v !in wave ==> r[v] == s[v] || (s[v].Pending? && r[v].Skipped?))
    && (wave != [] ==> forall v :: v in s ==> !Impossible(edges, r, v))
  }

  lemma {:induction false} AdmittedIsNotSkipped(edges: seq<Edge>, s: States, v: NodeId)
    requires Covers(edges, s) && v in s && Admitted(edges, s, v)
    ensures SkipAll(edges, s)[v] == s[v]
    decreases Pendings(s)
  {
    var r := SkipRound(edges, s);
    if r != s {
      SkippedRoundShrinks(edges, s);
      AdmissionIsStable(edges, s, r, v);
      AdmittedIsNotSkipped(edges, r, v);
    }
  }

  /** Completing one ready node leaves the other ready nodes ready. */
  lemma OneCompletion(edges: seq<Edge>, s: States, v: NodeId, x: NodeState, u: NodeId)
    requires Covers(edges, s) && v in s && u in s && u != v
    requires s[v].Pending? && x.IsTerminal() && IsReady(edges, s, u)
    ensures IsReady(edges, SkipAll(edges, s[v := x]), u)
  {
    var t := s[v := x];
    AdmissionIsStable(edges, s, t, u);
    AdmittedIsNotSkipped(edges, t, u);
    SkipAllKeepsFinished(edges, t);
    AdmissionIsStable(edges, t, SkipAll(edges, t), u);
  }

  lemma {:induction false} AfterWaveCompletes(edges: seq<Edge>, s: States, wave: seq<NodeId>)
    requires Covers(edges, s) && Distinct(wave) && forall v :: v in wave ==> v in s && IsReady(edges, s, v)
    ensures WaveCompleted(edges, s, wave, AfterWave(edges, s, wave))
    decreases |wave|
  {
    if wave != [] {
      var v, rest := wave[0], wave[1..];
      var t := SkipAll(edges, s[v := Succeeded]);
      SkipAllKeepsFinished(edges, s[v := Succeeded]);
      SkipAllIsFixpoint(edges, s[v := Succeeded]);
      forall u | u in rest ensures u in t && IsReady(edges, t, u) {
        var i :| 0 <= i < |rest| && rest[i] == u;
        assert wave[i + 1] == u;
        OneCompletion(edges, s, v, Succeeded, u);
      }
      AfterWaveCompletes(edges, t, rest);
      WaveStep(edges, s, wave, t, AfterWave(edges, t, rest));
    }
  }

  lemma WaveStep(edges: seq<Edge>, s: States, wave: seq<NodeId>, t: States, r: States)
    requires Covers(edges, s) && wave != [] && Distinct(wave) && wave[0] in s && s[wave[0]].Pending?
    requires forall v :: v in wave ==> v in s && s[v].Pending?
    requires t.Keys == s.Keys && r.Keys == s.Keys
    requires t[wave[0]] == Succeeded
    requires forall v :: v in s && v != wave[0] ==> t[v] == s[v] || (s[v].Pending? && t[v].Skipped?)
    requires forall v :: v in s ==> !Impossible(edges, t, v)
    requires WaveCompleted(edges, t, wave[1..], r) && (wave[1..] == [] ==> r == t)
    ensures WaveCompleted(edges, s, wave, r)
  {
    forall v | v in wave ensures r[v] == Succeeded {
      if v != wave[0] {
        var i :| 0 <= i < |wave| && wave[i] == v;
        assert wave[1..][i - 1] == v;
      }
    }
    forall v | v in s && v !in wave ensures r[v] == s[v] || (s[v].Pending? && r[v].Skipped?) {
      assert v !in wave[1..];
    }
  }

  lemma WaveShrinksPending(edges: seq<Edge>, s: States, wave: seq<NodeId>)
    requires Covers(edges, s) && wave != [] && Distinct(wave)
    requires forall v :: v in wave ==> v in s && IsReady(edges, s, v)
    ensures Pendings(AfterWave(edges, s, wave)) < Pendings(s)
    ensures |Pendings(AfterWave(edges, s, wave))| + |wave| <= |Pendings(s)|
  {
    AfterWaveCompletes(edges, s, wave);
    var r := AfterWave(edges, s, wave);
    assert wave[0] in Pendings(s) && wave[0] !in Pendings(r);
    DistinctCardinality(wave);
    SubsetCardinality(Pendings(r) + Elements(wave), Pendings(s));
  }

  /** The plan from states `s`: wave after wave, each completed before the next is formed. */
  function PlanFrom(m: map<NodeId, Node>, edges: seq<Edge>, s: States, order: seq<NodeId>, limit: Option<nat>)
    : (plan: seq<seq<NodeId>>)
    requires Plannable(m, edges, s, order)
    decreases Pendings(s)
  {
    NextWaveIsWave(m, edges, s, order, limit);
    var wave := NextWave(m, edges, s, order, limit);
    if wave == [] then []
    else
      WaveShrinksPending(edges, s, wave);
      [wave] + PlanFrom(m, edges, AfterWave(edges, s, wave), order, limit)
  }

  // ----- Soundness -----

  /** All planned nodes, wave after wave. */
  function Flatten(plan: seq<seq<NodeId>>): seq<NodeId> {
    if plan == [] then [] else plan[0] + Flatten(plan[1..])
  }

  lemma {:induction false} FlattenHolds(plan: seq<seq<NodeId>>)
    ensures forall v :: v in Flatten(plan) <==> exists i :: 0 <= i < |plan| && v in plan[i]
  {
    if plan != [] {
      FlattenHolds(plan[1..]);
      forall v ensures v in Flatten(plan) <==> exists i :: 0 <= i < |plan| && v in plan[i] {
        if v in plan[0] {
        } else if v in Flatten(plan[1..]) {
          var i :| 0 <= i < |plan[1..]| && v in plan[1..][i];
          assert v in plan[i + 1];
        }
        if i :| 0 < i < |plan| && v in plan[i] {
          assert v in plan[1..][i - 1];
        }
      }
    }
  }

  /** One wave of a plan, and the states it leads to. */
  ghost predicate WaveLeads(edges: seq<Edge>, s: States, limit: Option<nat>, wave: seq<NodeId>, t: States)
    requires Covers(edges, s)
  {
    && wave != [] && IsWave(edges, s, limit, wave)
    && t.Keys == s.Keys && WaveCompleted(edges, s, wave, t)
    && |Pendings(t)| + |wave| <= |Pendings(s)|
  }

  lemma PlanUnfolds(m: map<NodeId, Node>, edges: seq<Edge>, s: States, order: seq<NodeId>, limit: Option<nat>)
    returns (wave: seq<NodeId>, t: States)
    requires Plannable(m, edges, s, order)
    ensures wave == NextWave(m, edges, s, order, limit) && IsWave(edges, s, limit, wave)
    ensures t.Keys == s.Keys && (wave != [] ==> t == AfterWave(edges, s, wave))
    ensures wave == [] ==> PlanFrom(m, edges, s, order, limit) == []
    ensures wave != [] ==> PlanFrom(m, edges, s, order, limit) == [wave] + PlanFrom(m, edges, t, order, limit)
    ensures wave != [] ==>
              WaveLeads(edges, s, limit, wave, t) && Pendings(t) < Pendings(s) && |Pendings(t)| < |Pendings(s)|
    ensures Plannable(m, edges, t, order)
  {
    hide NextWave, AfterWave, IsReady, WaveCompleted, SkipAll;
    wave := NextWave(m, edges, s, order, limit);
    NextWaveIsWave(m, edges, s, order, limit);
    t := s;
    if wave != [] {
      WaveShrinksPending(edges, s, wave);
      AfterWaveCompletes(edges, s, wave);
      t := AfterWave(edges, s, wave);
    }
  }

  /** The states in which wave `k` of a plan is formed: those after the waves before it. */
  ghost function StatesAt(edges: seq<Edge>, s: States, plan: seq<seq<NodeId>>, k: nat): (r: States)
    requires Covers(edges, s) && k <= |plan| && forall i, v :: 0 <= i < k && v in plan[i] ==> v in s
    ensures r.Keys == s.Keys && Covers(edges, r)
  {
    if k == 0 then s else AfterWave(edges, StatesAt(edges, s, plan, k - 1), plan[k - 1])
  }

  /** Every wave takes the first of the nodes that are ready when it is formed. */
  ghost predicate EachTakesFirst(
      m: map<NodeId, Node>, edges: seq<Edge>, s: States, limit: Option<nat>, plan: seq<seq<NodeId>>)
    requires Covers(edges, s)
  {
    && (forall i, v :: 0 <= i < |plan| && v in plan[i] ==> v in s)
    && forall k :: 0 <= k < |plan| ==> TakesFirst(m, edges, StatesAt(edges, s, plan, k), limit, plan[k])
  }

  lemma {:induction false} StatesAtNext(edges: seq<Edge>, s: States, wave: seq<NodeId>, rest: seq<seq<NodeId>>, k: nat)
    requires Covers(edges, s) && (forall v :: v in wave ==> v in s) && k <= |rest|
    requires forall i, v :: 0 <= i < k && v in rest[i] ==> v in s
    ensures forall i, v :: 0 <= i < k + 1 && v in ([wave] + rest)[i] ==> v in s
    ensures StatesAt(edges, s, [wave] + rest, k + 1) == StatesAt(edges, AfterWave(edges, s, wave), rest, k)
  {
    hide AfterWave;
    var plan := [wave] + rest;
    if k == 0 {
      assert StatesAt(edges, s, plan, 0) == s && plan[0] == wave;
    } else {
      StatesAtNext(edges, s, wave, rest, k - 1);
      assert plan[k] == rest[k - 1];
    }
  }

  /** In every plan: priorities do not rise within a wave, equal ones are in the order of
      names, and what is ready but left for later comes after all that is taken. */
  lemma {:induction false} PlanTakesFirst(
      m: map<NodeId, Node>, edges: seq<Edge>, s: States, order: seq<NodeId>, limit: Option<nat>)
    requires Plannable(m, edges, s, order)
    ensures EachTakesFirst(m, edges, s, limit, PlanFrom(m, edges, s, order, limit))
    decreases Pendings(s)
  {
    hide PlanFrom, NextWave, AfterWave, IsWave, WaveLeads, TakesFirst, Pendings;
    var wave, t := PlanUnfolds(m, edges, s, order, limit);
    if wave != [] {
      WaveIsKnown(edges, s, limit, wave, t);
      PlanTakesFirst(m, edges, t, order, limit);
      NextWaveTakesFirst(m, edges, s, order, limit);
      TakesFirstStep(m, edges, s, limit, wave, PlanFrom(m, edges, t, order, limit));
    }
  }

  lemma WaveIsKnown(edges: seq<Edge>, s: States, limit: Option<nat>, wave: seq<NodeId>, t: States)
    requires Covers(edges, s) && WaveLeads(edges, s, limit, wave, t)
    ensures (forall v :: v in wave ==> v in s) && Covers(edges, t) && t.Keys == s.Keys
  {
    hide IsReady, Impossible;
  }

  lemma HeldByPlan(s: States, wave: seq<NodeId>, rest: seq<seq<NodeId>>)
    requires (forall v :: v in wave ==> v in s) && forall i, v :: 0 <= i < |rest| && v in rest[i] ==> v in s
    ensures forall i, v :: 0 <= i < |[wave] + rest| && v in ([wave] + rest)[i] ==> v in s
  {
    var plan := [wave] + rest;
    forall i, v | 0 <= i < |plan| && v in plan[i] ensures v in s {
      if i > 0 {
        assert plan[i] == rest[i - 1];
      }
    }
  }

  lemma TakesFirstStep(
      m: map<NodeId, Node>, edges: seq<Edge>, s: States, limit: Option<nat>, wave: seq<NodeId>,
      rest: seq<seq<NodeId>>)
    requires Covers(edges, s) && (forall v :: v in wave ==> v in s) && Covers(edges, AfterWave(edges, s, wave))
    requires TakesFirst(m, edges, s, limit, wave)
    requires EachTakesFirst(m, edges, AfterWave(edges, s, wave), limit, rest)
    ensures EachTakesFirst(m, edges, s, limit, [wave] + rest)
  {
    hide AfterWave, TakesFirst, StatesAt, Covers;
    HeldByPlan(s, wave, rest);
    var plan := [wave] + rest;
    forall k | 0 <= k < |plan| ensures TakesFirst(m, edges, StatesAt(edges, s, plan, k), limit, plan[k]) {
      if k > 0 {
        StatesAtNext(edges, s, wave, rest, k - 1);
        assert plan[k] == rest[k - 1];
      } else {
        StatesAtFirst(edges, s, plan);
      }
    }
  }

  lemma StatesAtFirst(edges: seq<Edge>, s: States, plan: seq<seq<NodeId>>)
    requires Covers(edges, s)
    ensures StatesAt(edges, s, plan, 0) == s
  {
  }

  /** Waves hold pending nodes, none twice, are not empty and respect the limit. */
  ghost predicate HoldsPendingOnce(s: States, limit: Option<nat>, plan: seq<seq<NodeId>>) {
    && Distinct(Flatten(plan)) && (forall v :: v in Flatten(plan) ==> v in s && s[v].Pending?)
    && (forall i :: 0 <= i < |plan| ==> plan[i] != [] && (limit.Some? ==> |plan[i]| <= limit.value))
    && |plan| <= |Flatten(plan)| <= |Pendings(s)|
  }

  lemma HoldsPendingOnceStep(
      edges: seq<Edge>, s: States, limit: Option<nat>, wave: seq<NodeId>, t: States, rest: seq<seq<NodeId>>)
    requires Covers(edges, s) && WaveLeads(edges, s, limit, wave, t) && HoldsPendingOnce(t, limit, rest)
    ensures HoldsPendingOnce(s, limit, [wave] + rest)
  {
    var plan := [wave] + rest;
    assert plan[1..] == rest;
    assert Flatten(plan) == wave + Flatten(rest);
    forall i, j | 0 <= i < |wave| && 0 <= j < |Flatten(rest)| ensures wave[i] != Flatten(rest)[j] {
      assert Flatten(rest)[j] in Flatten(rest) && wave[i] in wave;
    }
  }

  lemma {:induction false} PlanHoldsPendingOnce(
      m: map<NodeId, Node>, edges: seq<Edge>, s: States, order: seq<NodeId>, limit: Option<nat>)
    requires Plannable(m, edges, s, order)
    ensures HoldsPendingOnce(s, limit, PlanFrom(m, edges, s, order, limit))
    decreases Pendings(s)
  {
    var wave, t := PlanUnfolds(m, edges, s, order, limit);
    if wave != [] {
      PlanHoldsPendingOnce(m, edges, t, order, limit);
      HoldsPendingOnceStep(edges, s, limit, wave, t, PlanFrom(m, edges, t, order, limit));
    }
  }

  /** Every edge between two planned nodes goes from an earlier wave to a later one. */
  ghost predicate RespectsEdges(edges: seq<Edge>, plan: seq<seq<NodeId>>) {
    forall e, i, j :: e in edges && 0 <= i < |plan| && 0 <= j < |plan| && e.source in plan[i] && e.target in plan[j] ==>
      i < j
  }

  lemma RespectsEdgesStep(
      edges: seq<Edge>, s: States, limit: Option<nat>, wave: seq<NodeId>, t: States, rest: seq<seq<NodeId>>)
    requires Covers(edges, s) && WaveLeads(edges, s, limit, wave, t)
    requires HoldsPendingOnce(t, limit, rest) && RespectsEdges(edges, rest)
    ensures RespectsEdges(edges, [wave] + rest)
  {
    var plan := [wave] + rest;
    HoldsPendingOnceStep(edges, s, limit, wave, t, rest);
    FlattenHolds(plan);
    forall e, i, j | e in edges && 0 <= i < |plan| && 0 <= j < |plan| && e.source in plan[i] && e.target in plan[j]
      ensures i < j
    {
      assert e.source in Flatten(plan);
      if i > 0 && j > 0 {
        assert plan[i] == rest[i - 1] && plan[j] == rest[j - 1];
      }
    }
  }

  lemma {:induction false} PlanRespectsEdges(
      m: map<NodeId, Node>, edges: seq<Edge>, s: States, order: seq<NodeId>, limit: Option<nat>)
    requires Plannable(m, edges, s, order)
    ensures RespectsEdges(edges, PlanFrom(m, edges, s, order, limit))
    decreases Pendings(s)
  {
    var wave, t := PlanUnfolds(m, edges, s, order, limit);
    if wave != [] {
      PlanHoldsPendingOnce(m, edges, t, order, limit);
      PlanRespectsEdges(m, edges, t, order, limit);
      RespectsEdgesStep(edges, s, limit, wave, t, PlanFrom(m, edges, t, order, limit));
    }
  }

  // ----- Coverage -----

  function AllSucceed(): Outcome {
    v => Succeeded
  }

  /** Only nodes that have finished have left their initial state. */
  ghost predicate OnlyFinishes(init: States, s: States) {
    s.Keys == init.Keys && forall v :: v in s && s[v] != init[v] ==> s[v].IsTerminal()
  }

  /** The planned nodes are exactly the pending ones that succeed when all work succeeds. */
  ghost predicate CoversExactly(
      edges: seq<Edge>, rank: map<NodeId, nat>, init: States, s: States, plan: seq<seq<NodeId>>)
    requires Covers(edges, init) && Ranked(edges, rank) && s.Keys == init.Keys
  {
    forall v :: v in s ==>
      (v in Flatten(plan) <==> s[v].Pending? && Final(edges, rank, init, AllSucceed(), v).Succeeded?)
  }

  lemma CoversExactlyStep(edges: seq<Edge>, rank: map<NodeId, nat>, init: States, s: States, limit: Option<nat>,
                          wave: seq<NodeId>, t: States, rest: seq<seq<NodeId>>)
    requires Setting(edges, rank, init, AllSucceed()) && Agrees(edges, rank, init, AllSucceed(), s)
    requires OnlyFinishes(init, s)
    requires WaveLeads(edges, s, limit, wave, t) && Agrees(edges, rank, init, AllSucceed(), t)
    requires CoversExactly(edges, rank, init, t, rest)
    ensures CoversExactly(edges, rank, init, s, [wave] + rest)
  {
    var plan := [wave] + rest;
    assert plan[1..] == rest;
    assert Flatten(plan) == wave + Flatten(rest);
    forall v | v in s
      ensures v in Flatten(plan) <==> s[v].Pending? && Final(edges, rank, init, AllSucceed(), v).Succeeded?
    {
      if v in wave {
        AdmittedEndsAsItsWork(edges, rank, init, AllSucceed(), s, v);
      }
    }
  }

  /** With skips propagated, the plan holds exactly the pending nodes that succeed when
      all work succeeds. */
  lemma {:induction false} PropagatedPlanCoverage(
      m: map<NodeId, Node>, edges: seq<Edge>, rank: map<NodeId, nat>, init: States, s: States,
      order: seq<NodeId>, limit: Option<nat>)
    requires Plannable(m, edges, s, order) && limit != Some(0)
    requires Setting(edges, rank, init, AllSucceed()) && Agrees(edges, rank, init, AllSucceed(), s)
    requires OnlyFinishes(init, s)
    requires forall u :: u in s ==> !Impossible(edges, s, u)
    ensures CoversExactly(edges, rank, init, s, PlanFrom(m, edges, s, order, limit))
    decreases Pendings(s)
  {
    hide PlanFrom, NextWave, AfterWave, IsWave, WaveLeads, CoversExactly, Agrees, Impossible, OnlyFinishes, SkipAll,
      Final;
    var wave, t := PlanUnfolds(m, edges, s, order, limit);
    WaveIsReady(edges, s, limit, wave);
    if wave == [] {
      NothingLeftIsFinal(edges, rank, init, s, limit);
    } else {
      AfterWaveAgrees(edges, rank, init, s, wave);
      WaveKeepsPremises(edges, init, s, limit, wave, t);
      PropagatedPlanCoverage(m, edges, rank, init, t, order, limit);
      CoversExactlyStep(edges, rank, init, s, limit, wave, t, PlanFrom(m, edges, t, order, limit));
    }
  }

  ghost predicate SomeReady(edges: seq<Edge>, s: States)
    requires Covers(edges, s)
  {
    exists v :: v in s && IsReady(edges, s, v)
  }

  /** The plan holds exactly the pending nodes that succeed when all work succeeds, unless
      nothing is ready at first and skips, which planning propagates only after its first
      wave, would make something ready. */
  lemma PlanCoverage(
      m: map<NodeId, Node>, edges: seq<Edge>, rank: map<NodeId, nat>, init: States, s: States,
      order: seq<NodeId>, limit: Option<nat>)
    requires Plannable(m, edges, s, order) && limit != Some(0)
    requires Setting(edges, rank, init, AllSucceed())
    requires Agrees(edges, rank, init, AllSucceed(), s) && OnlyFinishes(init, s)
    ensures CoversExactly(edges, rank, init, s, PlanFrom(m, edges, s, order, limit)) <==>
            SomeReady(edges, s) || !SomeReady(edges, SkipAll(edges, s))
  {
    hide PlanFrom, NextWave, AfterWave, WaveLeads, CoversExactly, Agrees, Impossible, OnlyFinishes, SkipAll, Final;
    var wave, t := PlanUnfolds(m, edges, s, order, limit);
    if wave == [] {
      NothingReadyCoverage(edges, rank, init, s);
    } else {
      assert wave[0] in wave;
      AfterWaveAgrees(edges, rank, init, s, wave);
      WaveKeepsPremises(edges, init, s, limit, wave, t);
      PropagatedPlanCoverage(m, edges, rank, init, t, order, limit);
      CoversExactlyStep(edges, rank, init, s, limit, wave, t, PlanFrom(m, edges, t, order, limit));
    }
  }

  /** An empty plan is right exactly when propagating skips makes nothing ready. */
  lemma NothingReadyCoverage(edges: seq<Edge>, rank: map<NodeId, nat>, init: States, s: States)
    requires Setting(edges, rank, init, AllSucceed())
    requires Agrees(edges, rank, init, AllSucceed(), s) && OnlyFinishes(init, s)
    ensures CoversExactly(edges, rank, init, s, []) <==> !SomeReady(edges, SkipAll(edges, s))
  {
    hide Final, SkipAll, Impossible;
    var u := SkipAll(edges, s);
    SkipAllAgrees(edges, rank, init, AllSucceed(), s);
    SkipAllKeepsFinished(edges, s);
    SkipAllIsFixpoint(edges, s);
    if v :| v in u && IsReady(edges, u, v) {
      AdmittedEndsAsItsWork(edges, rank, init, AllSucceed(), u, v);
    } else {
      forall v | v in u ensures u[v] == Final(edges, rank, init, AllSucceed(), v) {
        QuiescentIsFinal(edges, rank, init, AllSucceed(), u, v);
      }
    }
  }

  /** A failed node, one that needed its success, and one behind that in any case: nothing
      is planned, and the last one would have run. */
  lemma UnpropagatedSkipHidesWork()
    ensures var edges := [Edge(0, 1, DependsOn, None, 0), Edge(1, 2, DependsOn, Some(Always), 0)];
            var s := map[0 := Failed, 1 := Pending, 2 := Pending];
            !SomeReady(edges, s) && SomeReady(edges, SkipAll(edges, s))
  {
    hide SkipAll, SkipSet;
    var a, b := Edge(0, 1, DependsOn, None, 0), Edge(1, 2, DependsOn, Some(Always), 0);
    var edges := [a, b];
    var s := map[0 := Failed, 1 := Pending, 2 := Pending];
    assert a in edges && b in edges && !Satisfied(s[0], a) && !Satisfied(s[1], b);
    var u := SkipAll(edges, s);
    SkipAllKeepsFinished(edges, s);
    SkipAllIsFixpoint(edges, s);
    assert u[1].Skipped? by {
      assert Refuses(u, a) && !Impossible(edges, u, 1);
    }
    AlwaysOnlyIsNeverSkipped(edges, s, 2);
    assert IsReady(edges, u, 2);
  }

  lemma WaveIsReady(edges: seq<Edge>, s: States, limit: Option<nat>, wave: seq<NodeId>)
    requires Covers(edges, s) && IsWave(edges, s, limit, wave)
    ensures Distinct(wave) && forall v :: v in wave ==> v in s && IsReady(edges, s, v)
  {
  }

  /** Without a ready or an impossible node, exactly the nodes that finished have succeeded, or not. */
  lemma NothingLeftIsFinal(edges: seq<Edge>, rank: map<NodeId, nat>, init: States, s: States, limit: Option<nat>)
    requires Setting(edges, rank, init, AllSucceed()) && Agrees(edges, rank, init, AllSucceed(), s)
    requires OnlyFinishes(init, s)
    requires limit != Some(0) && IsWave(edges, s, limit, []) && forall u :: u in s ==> !Impossible(edges, s, u)
    ensures CoversExactly(edges, rank, init, s, [])
  {
    forall v | v in s ensures s[v] == Final(edges, rank, init, AllSucceed(), v) {
      QuiescentIsFinal(edges, rank, init, AllSucceed(), s, v);
    }
  }

  lemma WaveKeepsPremises(edges: seq<Edge>, init: States, s: States, limit: Option<nat>, wave: seq<NodeId>, t: States)
    requires Covers(edges, s) && OnlyFinishes(init, s) && WaveLeads(edges, s, limit, wave, t)
    ensures OnlyFinishes(init, t) && forall u :: u in t ==> !Impossible(edges, t, u)
  {
  }

  lemma {:induction false} AfterWaveAgrees(
      edges: seq<Edge>, rank: map<NodeId, nat>, init: States, s: States, wave: seq<NodeId>)
    requires Setting(edges, rank, init, AllSucceed()) && Agrees(edges, rank, init, AllSucceed(), s)
    requires Distinct(wave) && forall v :: v in wave ==> v in s && IsReady(edges, s, v)
    ensures Agrees(edges, rank, init, AllSucceed(), AfterWave(edges, s, wave))
    decreases |wave|
  {
    if wave != [] {
      var v := wave[0];
      var t := SkipAll(edges, s[v := Succeeded]);
      CompletionAgrees(edges, rank, init, AllSucceed(), s, v);
      forall u | u in wave[1..] ensures u in t && IsReady(edges, t, u) {
        var i :| 0 <= i < |wave[1..]| && wave[1..][i] == u;
        assert wave[i + 1] == u;
        OneCompletion(edges, s, v, Succeeded, u);
      }
      AfterWaveAgrees(edges, rank, init, t, wave[1..]);
    }
  }

  /** When every node starts pending and success satisfies every edge, all nodes are planned. */
  lemma PlanCoversAll(m: map<NodeId, Node>, edges: seq<Edge>, s: States, order: seq<NodeId>, limit: Option<nat>)
    requires Plannable(m, edges, s, order) && limit != Some(0) && !HasCycle(edges)
    requires forall v :: v in s ==> s[v].Pending?
    requires forall e :: e in edges ==> SuccessSatisfies(e)
    ensures Elements(Flatten(PlanFrom(m, edges, s, order, limit))) == s.Keys
  {
    hide PlanFrom, Final, HasCycle;
    RankExistsIffAcyclic(edges);
    var rank :| Ranked(edges, rank);
    PlanHoldsPendingOnce(m, edges, s, order, limit);
    PropagatedPlanCoverage(m, edges, rank, s, s, order, limit);
    forall v | v in s ensures v in Flatten(PlanFrom(m, edges, s, order, limit)) {
      AllSucceedFrom(edges, rank, s, v);
    }
  }

  lemma {:induction false} AllSucceedFrom(edges: seq<Edge>, rank: map<NodeId, nat>, init: States, v: NodeId)
    requires Setting(edges, rank, init, AllSucceed()) && v in init
    requires forall u :: u in init ==> init[u].Pending?
    requires forall e :: e in edges ==> SuccessSatisfies(e)
    ensures Final(edges, rank, init, AllSucceed(), v) == Succeeded
    decreases RankOf(rank, v)
  {
    forall e | e in edges && e.target == v
      ensures Final(edges, rank, init, AllSucceed(), e.source) == Succeeded
    {
      AllSucceedFrom(edges, rank, init, e.source);
    }
  }
}
