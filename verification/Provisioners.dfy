/** The provisioner of the infrastructure example: it plans the changes from the present
    state to a wanted topology, and applies them. */
module Provisioners {
  import opened Prelude
  import opened Reconciliation

  datatype AgentPool = AgentPool(name: string, kind: string, replicas: nat)

  datatype ChannelDef = ChannelDef(name: string, from: string, to: string, bufferSize: nat)

  datatype Topology = Topology(pools: seq<AgentPool>, channels: seq<ChannelDef>)

  datatype ProvisionedPool = ProvisionedPool(
    name: string, kind: string, currentReplicas: nat, desiredReplicas: nat, agentIds: seq<string>)

  datatype ProvisionedChannel = ProvisionedChannel(name: string, from: string, to: string, bufferSize: nat)

  datatype PlanAction =
    | CreatePool(name: string, kind: string, replicas: nat)
    | UpdatePool(name: string, oldReplicas: nat, newReplicas: nat)
    | DestroyPool(name: string, currentReplicas: nat)
    | CreateChannel(name: string, from: string, to: string, bufferSize: nat)
    | UpdateChannel(name: string, oldBuffer: nat, newBuffer: nat)
    | DestroyChannel(name: string)
  {
    /** What the action does to the pools, seen as names and replicas. */
    function OnPools(): Option<Change> {
      match this
      case CreatePool(n, _, size) => Some(Create(n, size))
      case UpdatePool(n, _, size) => Some(Resize(n, size))
      case DestroyPool(n, _) => Some(Destroy(n))
      case _ => None
    }

    /** What the action does to the channels, seen as names and buffer sizes. */
    function OnChannels(): Option<Change> {
      match this
      case CreateChannel(n, _, _, size) => Some(Create(n, size))
      case UpdateChannel(n, _, size) => Some(Resize(n, size))
      case DestroyChannel(n) => Some(Destroy(n))
      case _ => None
    }
  }

  type Pools = map<string, ProvisionedPool>

  type Channels = map<string, ProvisionedChannel>

  function Digits(n: nat): string {
    if n < 10 then [('0' as int + n) as char] else Digits(n / 10) + [('0' as int + n % 10) as char]
  }

  function AgentId(pool: string, i: nat): string {
    pool + "-" + Digits(i)
  }

  /** The value of a string of digits. */
  function ValueOf(digits: string): int {
    if digits == "" then 0
    else ValueOf(digits[..|digits| - 1]) * 10 + (digits[|digits| - 1] as int - '0' as int)
  }

  lemma {:induction false} DigitsReadBack(n: nat)
    ensures ValueOf(Digits(n)) == n
    ensures forall i :: 0 <= i < |Digits(n)| ==> '0' <= Digits(n)[i] <= '9'
  {
    if n >= 10 {
      DigitsReadBack(n / 10);
      assert Digits(n)[..|Digits(n)| - 1] == Digits(n / 10);
    } else {
      assert Digits(n)[..0] == "";
    }
  }

  /** No two agents of a pool have one name. */
  lemma AgentsAreDistinct(pool: string, i: nat, j: nat)
    ensures AgentId(pool, i) == AgentId(pool, j) <==> i == j
  {
    DigitsReadBack(i);
    DigitsReadBack(j);
    var a, b := AgentId(pool, i), AgentId(pool, j);
    if a == b {
      assert Digits(i) == a[|pool| + 1..] == b[|pool| + 1..] == Digits(j);
    }
  }

  /** The pool has agents `name-0` to `name-(n-1)` for its `n` replicas. */
  ghost predicate IsStaffed(name: string, pool: ProvisionedPool) {
    && pool.currentReplicas == pool.desiredReplicas == |pool.agentIds|
    && forall i :: 0 <= i < |pool.agentIds| ==> pool.agentIds[i] == AgentId(name, i)
  }

  ghost predicate AllStaffed(pools: Pools) {
    forall name :: name in pools ==> IsStaffed(name, pools[name])
  }

  function PoolSizes(pools: Pools): (sizes: Sizes)
    ensures sizes.Keys == pools.Keys
  {
    map n | n in pools :: pools[n].desiredReplicas
  }

  function ChannelSizes(channels: Channels): (sizes: Sizes)
    ensures sizes.Keys == channels.Keys
  {
    map n | n in channels :: channels[n].bufferSize
  }

  function WantedPools(t: Topology): (wanted: seq<Wanted>)
    ensures |wanted| == |t.pools|
    ensures forall i :: 0 <= i < |wanted| ==> wanted[i] == Wanted(t.pools[i].name, t.pools[i].replicas)
  {
    seq(|t.pools|, i requires 0 <= i < |t.pools| => Wanted(t.pools[i].name, t.pools[i].replicas))
  }

  function WantedChannels(t: Topology): (wanted: seq<Wanted>)
    ensures |wanted| == |t.channels|
    ensures forall i :: 0 <= i < |wanted| ==> wanted[i] == Wanted(t.channels[i].name, t.channels[i].bufferSize)
  {
    seq(|t.channels|, i requires 0 <= i < |t.channels| => Wanted(t.channels[i].name, t.channels[i].bufferSize))
  }

  /** The changes that a list of actions makes to the pools, in order. */
  function PoolChanges(actions: seq<PlanAction>): seq<Change> {
    if actions == [] then []
    else
      var last := actions[|actions| - 1].OnPools();
      PoolChanges(actions[..|actions| - 1]) + if last.Some? then [last.value] else []
  }

  function ChannelChanges(actions: seq<PlanAction>): seq<Change> {
    if actions == [] then []
    else
      var last := actions[|actions| - 1].OnChannels();
      ChannelChanges(actions[..|actions| - 1]) + if last.Some? then [last.value] else []
  }

  lemma NoActionNoChange()
    ensures PoolChanges([]) == [] && ChannelChanges([]) == []
  {
  }

  lemma OneMoreAction(actions: seq<PlanAction>, a: PlanAction)
    ensures PoolChanges(actions + [a]) == PoolChanges(actions) + if a.OnPools().Some? then [a.OnPools().value] else []
    ensures ChannelChanges(actions + [a]) ==
            ChannelChanges(actions) + if a.OnChannels().Some? then [a.OnChannels().value] else []
  {
    assert (actions + [a])[..|actions|] == actions;
  }

  lemma EveryActionChanges(a: PlanAction)
    ensures a.OnPools().Some? <==> a.OnChannels().None?
  {
  }

  lemma {:induction false} NoActionsIff(actions: seq<PlanAction>)
    ensures actions == [] <==> PoolChanges(actions) == [] && ChannelChanges(actions) == []
  {
    if actions != [] {
      EveryActionChanges(actions[|actions| - 1]);
    }
  }

  /** `actions` is a plan from these pools and channels to the topology: it makes the
      changes that are wanted, and destroys the rest. */
  ghost predicate IsPlan(pools: Pools, channels: Channels, t: Topology, actions: seq<PlanAction>) {
    exists poolDestroys, channelDestroys :: IsPlanWith(pools, channels, t, actions, poolDestroys, channelDestroys)
  }

  ghost predicate IsPlanWith(pools: Pools, channels: Channels, t: Topology, actions: seq<PlanAction>,
                             poolDestroys: seq<Change>, channelDestroys: seq<Change>)
  {
    && DestroysRest(PoolSizes(pools), WantedPools(t), poolDestroys)
    && DestroysRest(ChannelSizes(channels), WantedChannels(t), channelDestroys)
    && PoolChanges(actions) == Changes(PoolSizes(pools), WantedPools(t)) + poolDestroys
    && ChannelChanges(actions) == Changes(ChannelSizes(channels), WantedChannels(t)) + channelDestroys
  }

  // ----- What single actions say and do -----

  /** The action says what is true of the present state and wanted by the topology. */
  ghost predicate Accurate(pools: Pools, channels: Channels, t: Topology, a: PlanAction) {
    match a
    case CreatePool(n, kind, replicas) => n !in pools && AgentPool(n, kind, replicas) in t.pools
    case UpdatePool(n, before, after) =>
      && n in pools && pools[n].desiredReplicas == before != after
      && exists d :: d in t.pools && d.name == n && d.replicas == after
    case DestroyPool(n, replicas) => n in pools && pools[n].currentReplicas == replicas
    case CreateChannel(n, from, to, size) => n !in channels && ChannelDef(n, from, to, size) in t.channels
    case UpdateChannel(n, before, after) =>
      && n in channels && channels[n].bufferSize == before != after
      && exists d :: d in t.channels && d.name == n && d.bufferSize == after
    case DestroyChannel(n) => n in channels
  }

  ghost predicate AllAccurate(pools: Pools, channels: Channels, t: Topology, actions: seq<PlanAction>) {
    forall a :: a in actions ==> Accurate(pools, channels, t, a)
  }

  lemma NothingIsAccurate(pools: Pools, channels: Channels, t: Topology)
    ensures AllAccurate(pools, channels, t, [])
  {
  }

  lemma OneMoreAccurate(pools: Pools, channels: Channels, t: Topology, actions: seq<PlanAction>, a: PlanAction)
    requires AllAccurate(pools, channels, t, actions) && Accurate(pools, channels, t, a)
    ensures AllAccurate(pools, channels, t, actions + [a])
  {
    hide Accurate;
  }

  lemma NothingWanted(have: Sizes, wanted: seq<Wanted>)
    ensures Changes(have, wanted[..0]) == [] && wanted[..|wanted|] == wanted
  {
  }

  lemma OneMoreWanted(have: Sizes, wanted: seq<Wanted>, i: nat)
    requires i < |wanted|
    ensures var w := ChangeFor(have, wanted[i]);
            Changes(have, wanted[..i + 1]) == Changes(have, wanted[..i]) + if w.Some? then [w.value] else []
  {
    assert wanted[..i + 1][..i] == wanted[..i];
  }

  predicate IsCreate(a: PlanAction) { a.CreatePool? || a.CreateChannel? }

  predicate IsUpdate(a: PlanAction) { a.UpdatePool? || a.UpdateChannel? }

  predicate IsDestroy(a: PlanAction) { a.DestroyPool? || a.DestroyChannel? }

  function Tally(actions: seq<PlanAction>, p: PlanAction -> bool): nat {
    if actions == [] then 0 else Tally(actions[..|actions| - 1], p) + if p(actions[|actions| - 1]) then 1 else 0
  }

  /** The numbers of creations, updates and removals in a list of actions. */
  ghost predicate Counts(actions: seq<PlanAction>, creates: nat, updates: nat, destroys: nat) {
    creates == Tally(actions, IsCreate) && updates == Tally(actions, IsUpdate) && destroys == Tally(actions, IsDestroy)
  }

  lemma CountOneMore(actions: seq<PlanAction>, a: PlanAction, creates: nat, updates: nat, destroys: nat)
    requires Counts(actions, creates, updates, destroys)
    ensures Counts(actions + [a], creates + if IsCreate(a) then 1 else 0, updates + if IsUpdate(a) then 1 else 0,
                   destroys + if IsDestroy(a) then 1 else 0)
  {
    assert (actions + [a])[..|actions|] == actions;
  }

  lemma {:induction false} TallyJoins(a: seq<PlanAction>, b: seq<PlanAction>, p: PlanAction -> bool)
    ensures Tally(a + b, p) == Tally(a, p) + Tally(b, p)
    decreases |b|
  {
    if b == [] {
      assert a + b == a;
    } else {
      var most, last := b[..|b| - 1], b[|b| - 1];
      assert (a + b)[..|a + b| - 1] == a + most && (a + b)[|a + b| - 1] == last;
      TallyJoins(a, most, p);
    }
  }

  lemma CountsJoin(a: seq<PlanAction>, b: seq<PlanAction>, c1: nat, u1: nat, d1: nat, c2: nat, u2: nat, d2: nat)
    requires Counts(a, c1, u1, d1) && Counts(b, c2, u2, d2)
    ensures Counts(a + b, c1 + c2, u1 + u2, d1 + d2)
  {
    TallyJoins(a, b, IsCreate);
    TallyJoins(a, b, IsUpdate);
    TallyJoins(a, b, IsDestroy);
  }

  lemma NothingCounts()
    ensures Counts([], 0, 0, 0)
  {
  }

  function Rescaled(name: string, ids: seq<string>, replicas: nat): (r: seq<string>)
    ensures |r| == replicas
    ensures forall i :: 0 <= i < replicas ==> r[i] == if i < |ids| then ids[i] else AgentId(name, i)
  {
    seq(replicas, i requires 0 <= i < replicas => if i < |ids| then ids[i] else AgentId(name, i))
  }

  /** What one action does to the pools. */
  function PoolsAfter(pools: Pools, a: PlanAction): Pools {
    match a
    case CreatePool(n, kind, replicas) =>
      pools[n := ProvisionedPool(n, kind, replicas, replicas, Rescaled(n, [], replicas))]
    case UpdatePool(n, _, replicas) =>
      if n in pools then
        pools[n := pools[n].(agentIds := Rescaled(n, pools[n].agentIds, replicas),
                             currentReplicas := replicas, desiredReplicas := replicas)]
      else pools
    case DestroyPool(n, _) => pools - {n}
    case _ => pools
  }

  /** What one action does to the channels. */
  function ChannelsAfter(channels: Channels, a: PlanAction): Channels {
    match a
    case CreateChannel(n, from, to, size) => channels[n := ProvisionedChannel(n, from, to, size)]
    case UpdateChannel(n, _, size) =>
      if n in channels then channels[n := channels[n].(bufferSize := size)] else channels
    case DestroyChannel(n) => channels - {n}
    case _ => channels
  }

  function PoolsAfterAll(pools: Pools, actions: seq<PlanAction>): Pools {
    if actions == [] then pools else PoolsAfter(PoolsAfterAll(pools, actions[..|actions| - 1]), actions[|actions| - 1])
  }

  function ChannelsAfterAll(channels: Channels, actions: seq<PlanAction>): Channels {
    if actions == [] then channels
    else ChannelsAfter(ChannelsAfterAll(channels, actions[..|actions| - 1]), actions[|actions| - 1])
  }

  lemma AfterOneMore(pools: Pools, channels: Channels, actions: seq<PlanAction>, a: PlanAction)
    ensures PoolsAfterAll(pools, actions + [a]) == PoolsAfter(PoolsAfterAll(pools, actions), a)
    ensures ChannelsAfterAll(channels, actions + [a]) == ChannelsAfter(ChannelsAfterAll(channels, actions), a)
  {
    assert (actions + [a])[..|actions|] == actions;
  }

  lemma SizesAfter(pools: Pools, channels: Channels, a: PlanAction)
    ensures PoolSizes(PoolsAfter(pools, a)) ==
            if a.OnPools().Some? then ApplyChange(PoolSizes(pools), a.OnPools().value) else PoolSizes(pools)
    ensures ChannelSizes(ChannelsAfter(channels, a)) ==
            if a.OnChannels().Some? then ApplyChange(ChannelSizes(channels), a.OnChannels().value)
            else ChannelSizes(channels)
  {
  }

  /** Seen as names and sizes, actions make the changes they stand for. */
  lemma {:induction false} SizesAfterAll(pools: Pools, channels: Channels, actions: seq<PlanAction>)
    ensures PoolSizes(PoolsAfterAll(pools, actions)) == ApplyChanges(PoolSizes(pools), PoolChanges(actions))
    ensures ChannelSizes(ChannelsAfterAll(channels, actions)) ==
            ApplyChanges(ChannelSizes(channels), ChannelChanges(actions))
  {
    hide PoolSizes, ChannelSizes;
    if actions != [] {
      var most, a := actions[..|actions| - 1], actions[|actions| - 1];
      SizesAfterAll(pools, channels, most);
      SizesAfter(PoolsAfterAll(pools, most), ChannelsAfterAll(channels, most), a);
      AppliedOneMore(PoolSizes(pools), PoolChanges(most), a.OnPools());
      AppliedOneMore(ChannelSizes(channels), ChannelChanges(most), a.OnChannels());
    }
  }

  /** Actions keep every pool's agents numbered from zero to its replicas. */
  lemma {:induction false} StaffedAfterAll(pools: Pools, actions: seq<PlanAction>)
    requires AllStaffed(pools)
    ensures AllStaffed(PoolsAfterAll(pools, actions))
  {
    if actions != [] {
      StaffedAfterAll(pools, actions[..|actions| - 1]);
    }
  }

  /** Where what is neither replicas nor buffer size comes from: it stays as it was for
      what was there, and is as in the topology for what is new. */
  ghost predicate KeepsOrigins(pools: Pools, channels: Channels, t: Topology, pools': Pools, channels': Channels) {
    && (forall n :: n in pools' ==>
          if n in pools then pools'[n].kind == pools[n].kind && pools'[n].name == pools[n].name
          else exists d :: d in t.pools && d.name == n == pools'[n].name && d.kind == pools'[n].kind)
    && (forall n :: n in channels' ==>
          if n in channels then channels'[n] == channels[n].(bufferSize := channels'[n].bufferSize)
          else exists d :: d in t.channels && d.name == n == channels'[n].name &&
                           d.from == channels'[n].from && d.to == channels'[n].to)
  }

  lemma OriginsAfter(pools: Pools, channels: Channels, t: Topology, p: Pools, c: Channels, a: PlanAction)
    requires KeepsOrigins(pools, channels, t, p, c) && Accurate(pools, channels, t, a)
    ensures KeepsOrigins(pools, channels, t, PoolsAfter(p, a), ChannelsAfter(c, a))
  {
    match a
    case CreatePool(n, kind, replicas) =>
      assert AgentPool(n, kind, replicas).kind == kind && AgentPool(n, kind, replicas).name == n;
    case CreateChannel(n, from, to, size) =>
      assert ChannelDef(n, from, to, size).from == from && ChannelDef(n, from, to, size).to == to;
    case _ =>
  }

  lemma {:induction false} OriginsAfterAll(pools: Pools, channels: Channels, t: Topology, actions: seq<PlanAction>)
    requires AllAccurate(pools, channels, t, actions)
    ensures KeepsOrigins(pools, channels, t, PoolsAfterAll(pools, actions), ChannelsAfterAll(channels, actions))
  {
    if actions != [] {
      var most, a := actions[..|actions| - 1], actions[|actions| - 1];
      assert actions == most + [a];
      OriginsAfterAll(pools, channels, t, most);
      OriginsAfter(pools, channels, t, PoolsAfterAll(pools, most), ChannelsAfterAll(channels, most), a);
    }
  }

  datatype Plan = Plan(actions: seq<PlanAction>, creates: nat, updates: nat, destroys: nat) {

    predicate IsEmpty() {
      actions == []
    }
  }

  /** Adjusts the agents of a pool to a number of replicas. */
  method Rescale(name: string, ids: seq<string>, replicas: nat) returns (r: seq<string>)
    ensures r == Rescaled(name, ids, replicas)
  {
    r := ids;
    while |r| < replicas
      invariant |ids| <= |r| && (|r| > |ids| ==> |r| <= replicas)
      invariant forall i :: 0 <= i < |r| ==> r[i] == if i < |ids| then ids[i] else AgentId(name, i)
    {
      r := r + [AgentId(name, |r|)];
    }
    r := r[..replicas];
  }

  class Provisioner {
    var pools: Pools
    var channels: Channels
    var serial: nat

    constructor ()
      ensures pools == map[] && channels == map[] && serial == 0
    {
      pools, channels, serial := map[], map[], 0;
    }

    constructor WithState(pools: Pools, channels: Channels, serial: nat)
      ensures this.pools == pools && this.channels == channels && this.serial == serial
    {
      this.pools, this.channels, this.serial := pools, channels, serial;
    }

    /** The actions for new and changed pools. */
    method PoolDiffs(t: Topology) returns (actions: seq<PlanAction>, creates: nat, updates: nat)
      ensures PoolChanges(actions) == Changes(PoolSizes(pools), WantedPools(t)) && ChannelChanges(actions) == []
      ensures AllAccurate(pools, channels, t, actions) && Counts(actions, creates, updates, 0)
    {
      hide PoolChanges, ChannelChanges, Counts, Changes, AllAccurate;
      NoActionNoChange();
      NothingCounts();
      actions, creates, updates := [], 0, 0;
      ghost var have, wanted := PoolSizes(pools), WantedPools(t);
      NothingWanted(have, wanted);
      NothingIsAccurate(pools, channels, t);
      for i := 0 to |t.pools|
        invariant PoolChanges(actions) == Changes(have, wanted[..i]) && ChannelChanges(actions) == []
        invariant AllAccurate(pools, channels, t, actions) && Counts(actions, creates, updates, 0)
      {
        var pool := t.pools[i];
        assert pool in t.pools;
        OneMoreWanted(have, wanted, i);
        if pool.name !in pools {
          var action := CreatePool(pool.name, pool.kind, pool.replicas);
          OneMoreAction(actions, action);
          OneMoreAccurate(pools, channels, t, actions, action);
          CountOneMore(actions, action, creates, updates, 0);
          actions, creates := actions + [action], creates + 1;
        } else if pools[pool.name].desiredReplicas != pool.replicas {
          var action := UpdatePool(pool.name, pools[pool.name].desiredReplicas, pool.replicas);
          OneMoreAction(actions, action);
          OneMoreAccurate(pools, channels, t, actions, action);
          CountOneMore(actions, action, creates, updates, 0);
          actions, updates := actions + [action], updates + 1;
        }
      }
      assert wanted[..|wanted|] == wanted;
    }

    /** The actions for pools that are there and not wanted, in an arbitrary order. */
    method PoolDestroys(t: Topology) returns (actions: seq<PlanAction>)
      ensures DestroysRest(PoolSizes(pools), WantedPools(t), PoolChanges(actions)) && ChannelChanges(actions) == []
      ensures AllAccurate(pools, channels, t, actions) && Counts(actions, 0, 0, |actions|)
    {
      hide PoolChanges, ChannelChanges, Counts;
      NoActionNoChange();
      NothingCounts();
      actions := [];
      ghost var have, wanted := PoolSizes(pools), WantedPools(t);
      var desired := set w | w in WantedPools(t) :: w.name;
      var left := pools.Keys;
      while left != {}
        invariant left <= pools.Keys && ChannelChanges(actions) == []
        invariant AllAccurate(pools, channels, t, actions) && Counts(actions, 0, 0, |actions|)
        invariant forall c :: c in PoolChanges(actions) ==> c.Destroy? && c.name in have && c.name !in NamesOf(wanted)
        invariant forall n :: n in have && n !in left && n !in NamesOf(wanted) ==> Destroy(n) in PoolChanges(actions)
        decreases left
      {
        var name :| name in left;
        if name !in desired {
          var action := DestroyPool(name, pools[name].currentReplicas);
          OneMoreAction(actions, action);
          CountOneMore(actions, action, 0, 0, |actions|);
          actions := actions + [action];
        }
        left := left - {name};
      }
    }

    method ChannelDiffs(t: Topology) returns (actions: seq<PlanAction>, creates: nat, updates: nat)
      ensures ChannelChanges(actions) == Changes(ChannelSizes(channels), WantedChannels(t))
      ensures PoolChanges(actions) == []
      ensures AllAccurate(pools, channels, t, actions) && Counts(actions, creates, updates, 0)
    {
      hide PoolChanges, ChannelChanges, Counts, Changes, AllAccurate;
      NoActionNoChange();
      NothingCounts();
      actions, creates, updates := [], 0, 0;
      ghost var have, wanted := ChannelSizes(channels), WantedChannels(t);
      NothingWanted(have, wanted);
      NothingIsAccurate(pools, channels, t);
      for i := 0 to |t.channels|
        invariant ChannelChanges(actions) == Changes(have, wanted[..i]) && PoolChanges(actions) == []
        invariant AllAccurate(pools, channels, t, actions) && Counts(actions, creates, updates, 0)
      {
        var channel := t.channels[i];
        assert channel in t.channels;
        OneMoreWanted(have, wanted, i);
        if channel.name !in channels {
          var action := CreateChannel(channel.name, channel.from, channel.to, channel.bufferSize);
          OneMoreAction(actions, action);
          OneMoreAccurate(pools, channels, t, actions, action);
          CountOneMore(actions, action, creates, updates, 0);
          actions, creates := actions + [action], creates + 1;
        } else if channels[channel.name].bufferSize != channel.bufferSize {
          var action := UpdateChannel(channel.name, channels[channel.name].bufferSize, channel.bufferSize);
          OneMoreAction(actions, action);
          OneMoreAccurate(pools, channels, t, actions, action);
          CountOneMore(actions, action, creates, updates, 0);
          actions, updates := actions + [action], updates + 1;
        }
      }
      assert wanted[..|wanted|] == wanted;
    }

    method ChannelDestroys(t: Topology) returns (actions: seq<PlanAction>)
      ensures DestroysRest(ChannelSizes(channels), WantedChannels(t), ChannelChanges(actions))
      ensures PoolChanges(actions) == []
      ensures AllAccurate(pools, channels, t, actions) && Counts(actions, 0, 0, |actions|)
    {
      hide PoolChanges, ChannelChanges, Counts;
      NoActionNoChange();
      NothingCounts();
      actions := [];
      ghost var have, wanted := ChannelSizes(channels), WantedChannels(t);
      var desired := set w | w in WantedChannels(t) :: w.name;
      var left := channels.Keys;
      while left != {}
        invariant left <= channels.Keys && PoolChanges(actions) == []
        invariant AllAccurate(pools, channels, t, actions) && Counts(actions, 0, 0, |actions|)
        invariant forall c :: c in ChannelChanges(actions) ==>
                  c.Destroy? && c.name in have && c.name !in NamesOf(wanted)
        invariant forall n :: n in have && n !in left && n !in NamesOf(wanted) ==> Destroy(n) in ChannelChanges(actions)
        decreases left
      {
        var name :| name in left;
        if name !in desired {
          var action := DestroyChannel(name);
          OneMoreAction(actions, action);
          CountOneMore(actions, action, 0, 0, |actions|);
          actions := actions + [action];
        }
        left := left - {name};
      }
    }

    /** The difference between the wanted topology and the present state. It is empty
        exactly when names, replicas and buffer sizes agree. */
    method MakePlan(t: Topology) returns (plan: Plan)
      ensures IsPlan(pools, channels, t, plan.actions)
      ensures AllAccurate(pools, channels, t, plan.actions)
      ensures Counts(plan.actions, plan.creates, plan.updates, plan.destroys)
      ensures plan.IsEmpty() <==>
              InSync(PoolSizes(pools), WantedPools(t)) && InSync(ChannelSizes(channels), WantedChannels(t))
    {
      hide InSync, DestroysRest, Changes, PoolChanges, ChannelChanges, Counts, Accurate, IsPlan;
      var a, creates, updates := PoolDiffs(t);
      var b := PoolDestroys(t);
      var c, moreCreates, moreUpdates := ChannelDiffs(t);
      var d := ChannelDestroys(t);
      JoinedPlan(pools, channels, t, a, b, c, d);
      CountsJoin(a, b, creates, updates, 0, 0, 0, |b|);
      CountsJoin(a + b, c, creates, updates, |b|, moreCreates, moreUpdates, 0);
      CountsJoin(a + b + c, d, creates + moreCreates, updates + moreUpdates, |b|, 0, 0, |d|);
      plan := Plan(a + b + c + d, creates + moreCreates, updates + moreUpdates, |b| + |d|);
      EmptyIffInSync(pools, channels, t, plan.actions);
    }

    /** Applies actions one after the other. */
    method Apply(plan: Plan)
      modifies this
      ensures pools == PoolsAfterAll(old(pools), plan.actions)
      ensures channels == ChannelsAfterAll(old(channels), plan.actions)
      ensures serial == old(serial) + 1
    {
      for i := 0 to |plan.actions|
        invariant pools == PoolsAfterAll(old(pools), plan.actions[..i])
        invariant channels == ChannelsAfterAll(old(channels), plan.actions[..i])
        invariant serial == old(serial)
      {
        hide PoolsAfter, ChannelsAfter;
        assert plan.actions[..i + 1] == plan.actions[..i] + [plan.actions[i]];
        AfterOneMore(old(pools), old(channels), plan.actions[..i], plan.actions[i]);
        ApplyAction(plan.actions[i]);
      }
      assert plan.actions[..|plan.actions|] == plan.actions;
      serial := serial + 1;
    }

    method ApplyAction(a: PlanAction)
      modifies this
      ensures pools == PoolsAfter(old(pools), a) && channels == ChannelsAfter(old(channels), a)
      ensures serial == old(serial)
    {
      match a
      case CreatePool(name, kind, replicas) =>
        var agentIds := seq(replicas, i requires 0 <= i < replicas => AgentId(name, i));
        assert agentIds == Rescaled(name, [], replicas);
        pools := pools[name := ProvisionedPool(name, kind, replicas, replicas, agentIds)];
      case UpdatePool(name, _, newReplicas) =>
        if name in pools {
          var pool := pools[name];
          var agentIds := Rescale(name, pool.agentIds, newReplicas);
          pools := pools[name := pool.(agentIds := agentIds,
                                       currentReplicas := newReplicas, desiredReplicas := newReplicas)];
        }
      case DestroyPool(name, _) =>
        pools := pools - {name};
      case CreateChannel(name, from, to, bufferSize) =>
        channels := channels[name := ProvisionedChannel(name, from, to, bufferSize)];
      case UpdateChannel(name, _, newBuffer) =>
        if name in channels {
          channels := channels[name := channels[name].(bufferSize := newBuffer)];
        }
      case DestroyChannel(name) =>
        channels := channels - {name};
    }

    /** Plans and applies: the state is then in sync with the topology, and planning again
        finds nothing to do. */
    method Reconcile(t: Topology) returns (first: Plan, second: Plan)
      requires Consistent(WantedPools(t)) && Consistent(WantedChannels(t))
      modifies this
      ensures InSync(PoolSizes(pools), WantedPools(t)) && InSync(ChannelSizes(channels), WantedChannels(t))
      ensures second.IsEmpty()
      ensures KeepsOrigins(old(pools), old(channels), t, pools, channels)
      ensures MeetsTopology(pools, channels, t) <==>
              EntriesAgree(t) && SuitsTopology(old(pools), old(channels), t)
      ensures AllStaffed(old(pools)) ==> AllStaffed(pools)
      ensures HasSizes(pools, channels, t)
    {
      hide HasSizes;
      hide IsPlan, InSync, Consistent, AllStaffed, AllAccurate, Counts, KeepsOrigins, PoolsAfterAll, ChannelsAfterAll;
      hide MeetsTopology, SuitsTopology, EntriesAgree;
      first := MakePlan(t);
      ghost var poolsBefore, channelsBefore := pools, channels;
      Apply(first);
      AppliedPlanIsInSync(poolsBefore, channelsBefore, t, first.actions);
      SizesAfterAll(poolsBefore, channelsBefore, first.actions);
      OriginsAfterAll(poolsBefore, channelsBefore, t, first.actions);
      KindsAndEndsIff(poolsBefore, channelsBefore, t, first.actions);
      if AllStaffed(poolsBefore) {
        StaffedAfterAll(poolsBefore, first.actions);
      }
      SyncedHasSizes(pools, channels, t);
      second := MakePlan(t);
    }
  }

  lemma AppliedOneMore(have: Sizes, changes: seq<Change>, c: Option<Change>)
    ensures ApplyChanges(have, changes + if c.Some? then [c.value] else []) ==
            if c.Some? then ApplyChange(ApplyChanges(have, changes), c.value) else ApplyChanges(have, changes)
  {
    if c.Some? {
      assert (changes + [c.value])[..|changes|] == changes;
    } else {
      assert changes + [] == changes;
    }
  }

  lemma {:induction false} ChangesJoin(a: seq<PlanAction>, b: seq<PlanAction>)
    ensures PoolChanges(a + b) == PoolChanges(a) + PoolChanges(b)
    ensures ChannelChanges(a + b) == ChannelChanges(a) + ChannelChanges(b)
    decreases |b|
  {
    if b == [] {
      assert a + b == a;
    } else {
      var most, last := b[..|b| - 1], b[|b| - 1];
      assert b == most + [last] && a + b == a + most + [last];
      ChangesJoin(a, most);
      OneMoreAction(a + most, last);
      OneMoreAction(most, last);
    }
  }

  lemma JoinedPlan(
      pools: Pools, channels: Channels, t: Topology, a: seq<PlanAction>, b: seq<PlanAction>,
      c: seq<PlanAction>, d: seq<PlanAction>)
    requires PoolChanges(a) == Changes(PoolSizes(pools), WantedPools(t)) && ChannelChanges(a) == []
    requires DestroysRest(PoolSizes(pools), WantedPools(t), PoolChanges(b)) && ChannelChanges(b) == []
    requires ChannelChanges(c) == Changes(ChannelSizes(channels), WantedChannels(t)) && PoolChanges(c) == []
    requires DestroysRest(ChannelSizes(channels), WantedChannels(t), ChannelChanges(d)) && PoolChanges(d) == []
    ensures IsPlan(pools, channels, t, a + b + c + d)
  {
    hide DestroysRest, Changes, PoolChanges, ChannelChanges, PoolSizes, ChannelSizes, WantedPools, WantedChannels;
    var all := a + b + c + d;
    FourJoined(a, b, c, d);
    WithoutEmpty(PoolChanges(a), PoolChanges(b));
    WithoutEmpty(ChannelChanges(c), ChannelChanges(d));
    assert IsPlanWith(pools, channels, t, all, PoolChanges(b), ChannelChanges(d));
  }

  lemma WithoutEmpty(x: seq<Change>, y: seq<Change>)
    ensures x + y + [] + [] == x + y && [] + [] + x + y == x + y
  {
  }

  lemma FourJoined(a: seq<PlanAction>, b: seq<PlanAction>, c: seq<PlanAction>, d: seq<PlanAction>)
    ensures PoolChanges(a + b + c + d) == PoolChanges(a) + PoolChanges(b) + PoolChanges(c) + PoolChanges(d)
    ensures ChannelChanges(a + b + c + d) ==
            ChannelChanges(a) + ChannelChanges(b) + ChannelChanges(c) + ChannelChanges(d)
  {
    hide PoolChanges, ChannelChanges;
    ChangesJoin(a, b);
    ChangesJoin(a + b, c);
    ChangesJoin(a + b + c, d);
  }

  /** A plan is empty exactly when names, replicas and buffer sizes agree. */
  lemma EmptyIffInSync(pools: Pools, channels: Channels, t: Topology, actions: seq<PlanAction>)
    requires IsPlan(pools, channels, t, actions)
    ensures actions == [] <==>
            InSync(PoolSizes(pools), WantedPools(t)) && InSync(ChannelSizes(channels), WantedChannels(t))
  {
    hide InSync, DestroysRest, Changes;
    var poolDestroys, channelDestroys :| IsPlanWith(pools, channels, t, actions, poolDestroys, channelDestroys);
    NoActionsIff(actions);
    EmptyPlanIff(PoolSizes(pools), WantedPools(t), poolDestroys);
    EmptyPlanIff(ChannelSizes(channels), WantedChannels(t), channelDestroys);
  }

  lemma AppliedPlanIsInSync(pools: Pools, channels: Channels, t: Topology, actions: seq<PlanAction>)
    requires IsPlan(pools, channels, t, actions) && Consistent(WantedPools(t)) && Consistent(WantedChannels(t))
    ensures InSync(ApplyChanges(PoolSizes(pools), PoolChanges(actions)), WantedPools(t))
    ensures InSync(ApplyChanges(ChannelSizes(channels), ChannelChanges(actions)), WantedChannels(t))
  {
    hide InSync, DestroysRest, Changes, Consistent, PoolChanges, ChannelChanges, ApplyChanges;
    var poolDestroys, channelDestroys :| IsPlanWith(pools, channels, t, actions, poolDestroys, channelDestroys);
    PlanConverges(PoolSizes(pools), WantedPools(t), poolDestroys);
    PlanConverges(ChannelSizes(channels), WantedChannels(t), channelDestroys);
  }

  /** Applying a plan brings a state in sync exactly when the topology is consistent: when
      entries with one name agree on replicas and on buffer size. */
  lemma ConvergesIffConsistent(pools: Pools, channels: Channels, t: Topology, actions: seq<PlanAction>)
    requires IsPlan(pools, channels, t, actions)
    ensures && InSync(ApplyChanges(PoolSizes(pools), PoolChanges(actions)), WantedPools(t))
            && InSync(ApplyChanges(ChannelSizes(channels), ChannelChanges(actions)), WantedChannels(t))
            <==> Consistent(WantedPools(t)) && Consistent(WantedChannels(t))
  {
    hide InSync, Consistent, IsPlan, ApplyChanges, PoolChanges, ChannelChanges;
    var p := ApplyChanges(PoolSizes(pools), PoolChanges(actions));
    var c := ApplyChanges(ChannelSizes(channels), ChannelChanges(actions));
    if Consistent(WantedPools(t)) && Consistent(WantedChannels(t)) {
      AppliedPlanIsInSync(pools, channels, t, actions);
    }
    if InSync(p, WantedPools(t)) && InSync(c, WantedChannels(t)) {
      SyncNeedsConsistency(p, WantedPools(t));
      SyncNeedsConsistency(c, WantedChannels(t));
    }
  }

  lemma AppliedPlanReachesNames(pools: Pools, channels: Channels, t: Topology, actions: seq<PlanAction>)
    requires IsPlan(pools, channels, t, actions)
    ensures PoolsAfterAll(pools, actions).Keys == NamesOf(WantedPools(t))
    ensures ChannelsAfterAll(channels, actions).Keys == NamesOf(WantedChannels(t))
  {
    hide DestroysRest, Changes, PoolChanges, ChannelChanges, ApplyChanges, PoolsAfterAll, ChannelsAfterAll;
    var poolDestroys, channelDestroys :| IsPlanWith(pools, channels, t, actions, poolDestroys, channelDestroys);
    PlanReachesNames(PoolSizes(pools), WantedPools(t), poolDestroys);
    PlanReachesNames(ChannelSizes(channels), WantedChannels(t), channelDestroys);
    SizesAfterAll(pools, channels, actions);
  }

  lemma WantedNames(t: Topology)
    ensures forall d :: d in t.pools ==> d.name in NamesOf(WantedPools(t))
    ensures forall d :: d in t.channels ==> d.name in NamesOf(WantedChannels(t))
  {
    forall d | d in t.pools ensures d.name in NamesOf(WantedPools(t)) {
      var i :| 0 <= i < |t.pools| && t.pools[i] == d;
      assert WantedPools(t)[i] in WantedPools(t);
    }
    forall d | d in t.channels ensures d.name in NamesOf(WantedChannels(t)) {
      var i :| 0 <= i < |t.channels| && t.channels[i] == d;
      assert WantedChannels(t)[i] in WantedChannels(t);
    }
  }

  /** There are the wanted pools and channels and no others, with the wanted replicas and
      buffer sizes. */
  ghost predicate HasSizes(pools: Pools, channels: Channels, t: Topology) {
    && (forall n :: n in pools ==> exists d :: d in t.pools && d.name == n)
    && (forall d :: d in t.pools ==> d.name in pools && pools[d.name].desiredReplicas == d.replicas)
    && (forall n :: n in channels ==> exists d :: d in t.channels && d.name == n)
    && forall d :: d in t.channels ==> d.name in channels && channels[d.name].bufferSize == d.bufferSize
  }

  lemma SyncedHasSizes(pools: Pools, channels: Channels, t: Topology)
    requires InSync(PoolSizes(pools), WantedPools(t)) && InSync(ChannelSizes(channels), WantedChannels(t))
    ensures HasSizes(pools, channels, t)
  {
    var p, c := WantedPools(t), WantedChannels(t);
    forall d | d in t.pools ensures d.name in pools && pools[d.name].desiredReplicas == d.replicas {
      var i :| 0 <= i < |t.pools| && t.pools[i] == d;
      assert p[i] in p && p[i].name in PoolSizes(pools);
    }
    forall d | d in t.channels ensures d.name in channels && channels[d.name].bufferSize == d.bufferSize {
      var i :| 0 <= i < |t.channels| && t.channels[i] == d;
      assert c[i] in c && c[i].name in ChannelSizes(channels);
    }
    forall n | n in pools ensures exists d :: d in t.pools && d.name == n {
      assert n in PoolSizes(pools);
      var w :| w in p && w.name == n;
      var i :| 0 <= i < |p| && p[i] == w;
      assert t.pools[i] in t.pools;
    }
    forall n | n in channels ensures exists d :: d in t.channels && d.name == n {
      assert n in ChannelSizes(channels);
      var w :| w in c && w.name == n;
      var i :| 0 <= i < |c| && c[i] == w;
      assert t.channels[i] in t.channels;
    }
  }

  /** Whatever of the wanted pools and channels is there has the wanted kind and ends. */
  ghost predicate SuitsTopology(pools: Pools, channels: Channels, t: Topology) {
    && (forall d :: d in t.pools && d.name in pools ==> pools[d.name].kind == d.kind)
    && forall d :: d in t.channels && d.name in channels ==>
         channels[d.name].from == d.from && channels[d.name].to == d.to
  }

  /** Everything wanted is there, with the wanted kind and ends. */
  ghost predicate MeetsTopology(pools: Pools, channels: Channels, t: Topology) {
    && SuitsTopology(pools, channels, t)
    && (forall d :: d in t.pools ==> d.name in pools)
    && forall d :: d in t.channels ==> d.name in channels
  }

  /** Entries of one name want one kind and the same ends. */
  ghost predicate EntriesAgree(t: Topology) {
    && (forall d, e :: d in t.pools && e in t.pools && d.name == e.name ==> d.kind == e.kind)
    && forall d, e :: d in t.channels && e in t.channels && d.name == e.name ==> d.from == e.from && d.to == e.to
  }

  /** Applying a plan gives every wanted pool its kind and every wanted channel its ends
      exactly when entries of one name agree on these, and what there was already under a
      wanted name had them: a plan never changes the kind or the ends of what is there. */
  lemma KindsAndEndsIff(pools: Pools, channels: Channels, t: Topology, actions: seq<PlanAction>)
    requires IsPlan(pools, channels, t, actions) && AllAccurate(pools, channels, t, actions)
    ensures MeetsTopology(PoolsAfterAll(pools, actions), ChannelsAfterAll(channels, actions), t) <==>
            EntriesAgree(t) && SuitsTopology(pools, channels, t)
  {
    hide IsPlan, AllAccurate, PoolsAfterAll, ChannelsAfterAll, WantedPools, WantedChannels, NamesOf;
    AppliedPlanReachesNames(pools, channels, t, actions);
    WantedNames(t);
    OriginsAfterAll(pools, channels, t, actions);
  }

  /** A change of a pool's kind, or of the ends of a channel, is not planned for. */
  lemma KindAndEndsGoUnnoticed()
    ensures var pools := map["p" := ProvisionedPool("p", "worker", 0, 0, [])];
            var channels := map["c" := ProvisionedChannel("c", "a", "b", 8)];
            var t := Topology([AgentPool("p", "analyst", 0)], [ChannelDef("c", "x", "y", 8)]);
            IsPlan(pools, channels, t, [])
  {
    var pools := map["p" := ProvisionedPool("p", "worker", 0, 0, [])];
    var channels := map["c" := ProvisionedChannel("c", "a", "b", 8)];
    var t := Topology([AgentPool("p", "analyst", 0)], [ChannelDef("c", "x", "y", 8)]);
    assert WantedPools(t) == [Wanted("p", 0)] && WantedChannels(t) == [Wanted("c", 8)];
    assert Wanted("p", 0) in WantedPools(t) && Wanted("c", 8) in WantedChannels(t);
    NoChangesIff(PoolSizes(pools), WantedPools(t));
    NoChangesIff(ChannelSizes(channels), WantedChannels(t));
    assert DestroysRest(PoolSizes(pools), WantedPools(t), []);
    assert DestroysRest(ChannelSizes(channels), WantedChannels(t), []);
    assert IsPlanWith(pools, channels, t, [], [], []);
  }
}
