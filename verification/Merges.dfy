/** Which merges a pass over a batch of records makes, and what they leave of a store. Both
    are determined by the threshold, the batch and the store, whatever the batch lists. */
module Merges {
  import opened Memories

  /** The record `absorbed` of a batch is merged into the stored record `keeper`. */
  datatype Merge = Merge(keeper: MemoryId, absorbed: Memory)

  /** The identifiers of the records that merges take out of the store. */
  function Taken(ms: seq<Merge>): set<MemoryId> {
    set x | x in ms :: x.absorbed.id
  }

  function Keepers(ms: seq<Merge>): set<MemoryId> {
    set x | x in ms :: x.keeper
  }

  function Ids(batch: seq<Memory>): set<MemoryId> {
    set m | m in batch :: m.id
  }

  ghost predicate UniqueIds(batch: seq<Memory>) {
    forall i, j :: 0 <= i < j < |batch| ==> batch[i].id != batch[j].id
  }

  // ----- The merges of one pass -----

  /** The merges of later records into `keeper`: of those that were not merged before and
      are mergeable into it, as long as the store has it. */
  function MergesInto(
      threshold: real, keeper: Memory, later: seq<Memory>, keys: set<MemoryId>, merged: set<MemoryId>): seq<Merge>
  {
    if later == [] then []
    else
      var m := later[0];
      if m.id !in merged && Mergeable(threshold, keeper, m) && keeper.id in keys then
        [Merge(keeper.id, m)] + MergesInto(threshold, keeper, later[1..], keys - {m.id}, merged + {m.id})
      else
        MergesInto(threshold, keeper, later[1..], keys, merged)
  }

  /** The merges into the first record of a group, unless it was merged itself. */
  function MergesIntoFirst(
      threshold: real, group: seq<Memory>, keys: set<MemoryId>, merged: set<MemoryId>): seq<Merge>
    requires group != []
  {
    if group[0].id in merged then [] else MergesInto(threshold, group[0], group[1..], keys, merged)
  }

  /** The merges within a group, in the order in which they are made. */
  function MergesOf(threshold: real, group: seq<Memory>, keys: set<MemoryId>, merged: set<MemoryId>): seq<Merge> {
    if group == [] then []
    else
      var first := MergesIntoFirst(threshold, group, keys, merged);
      first + MergesOf(threshold, group[1..], keys - Taken(first), merged + Taken(first))
  }

  // ----- What merges leave of a store -----

  function AfterMerge(d: Records, x: Merge): Records {
    if x.keeper in d then Merged(d, x.keeper, x.absorbed) else d
  }

  function AfterMerges(d: Records, ms: seq<Merge>): Records {
    if ms == [] then d else AfterMerge(AfterMerges(d, ms[..|ms| - 1]), ms[|ms| - 1])
  }

  /** Each keeper is in the store, which has these keys at first, when its merge is made. */
  predicate Follows(keys: set<MemoryId>, ms: seq<Merge>) {
    ms == [] ||
    (Follows(keys, ms[..|ms| - 1]) && ms[|ms| - 1].keeper in keys - Taken(ms[..|ms| - 1]))
  }

  lemma OneMoreMerge(d: Records, keys: set<MemoryId>, ms: seq<Merge>, x: Merge)
    ensures AfterMerges(d, ms + [x]) == AfterMerge(AfterMerges(d, ms), x)
    ensures Follows(keys, ms + [x]) <==> Follows(keys, ms) && x.keeper in keys - Taken(ms)
    ensures Taken(ms + [x]) == Taken(ms) + {x.absorbed.id}
    ensures Keepers(ms + [x]) == Keepers(ms) + {x.keeper}
  {
    assert (ms + [x])[..|ms|] == ms;
  }

  lemma NoMerge(d: Records, keys: set<MemoryId>)
    ensures AfterMerges(d, []) == d && Follows(keys, []) && Taken([]) == {} && Keepers([]) == {}
  {
  }

  lemma {:induction false} MergesInTurn(d: Records, keys: set<MemoryId>, a: seq<Merge>, b: seq<Merge>)
    ensures AfterMerges(d, a + b) == AfterMerges(AfterMerges(d, a), b)
    ensures Follows(keys, a + b) <==> Follows(keys, a) && Follows(keys - Taken(a), b)
    ensures Taken(a + b) == Taken(a) + Taken(b) && Keepers(a + b) == Keepers(a) + Keepers(b)
    decreases |b|
  {
    if b == [] {
      assert a + b == a;
    } else {
      var n := |b| - 1;
      assert a + b == (a + b[..n]) + [b[n]] && b == b[..n] + [b[n]];
      MergesInTurn(d, keys, a, b[..n]);
      OneMoreMerge(d, keys, a + b[..n], b[n]);
      OneMoreMerge(AfterMerges(d, a), keys - Taken(a), b[..n], b[n]);
    }
  }

  lemma {:induction false} KeysAfterMerges(d: Records, ms: seq<Merge>)
    requires Follows(d.Keys, ms)
    ensures AfterMerges(d, ms).Keys == d.Keys - Taken(ms)
  {
    if ms != [] {
      var n := |ms| - 1;
      assert ms == ms[..n] + [ms[n]];
      KeysAfterMerges(d, ms[..n]);
      OneMoreMerge(d, d.Keys, ms[..n], ms[n]);
    }
  }

  /** Records that no merge names are as they were. */
  lemma {:induction false} UnnamedStay(d: Records, ms: seq<Merge>, id: MemoryId)
    requires id !in Taken(ms) && id !in Keepers(ms)
    ensures id in AfterMerges(d, ms) <==> id in d
    ensures id in d ==> AfterMerges(d, ms)[id] == d[id]
  {
    if ms != [] {
      var n := |ms| - 1;
      assert ms == ms[..n] + [ms[n]];
      OneMoreMerge(d, {}, ms[..n], ms[n]);
      UnnamedStay(d, ms[..n], id);
    }
  }

  // ----- What the merges of a pass are -----

  /** Every merge is of a later record into an earlier one that it is mergeable into. */
  ghost predicate WithinGroup(threshold: real, group: seq<Memory>, x: Merge) {
    exists a, b :: 0 <= a < b < |group| && group[a].id == x.keeper && group[b] == x.absorbed
                   && Mergeable(threshold, group[a], group[b])
  }

  /** No identifier is taken twice, and none of `merged`. */
  ghost predicate TakenOnce(ms: seq<Merge>, merged: set<MemoryId>) {
    && (forall x :: x in ms ==> x.absorbed.id !in merged)
    && forall i, j :: 0 <= i < j < |ms| ==> ms[i].absorbed.id != ms[j].absorbed.id
  }

  lemma TakenOnceJoin(a: seq<Merge>, b: seq<Merge>, merged: set<MemoryId>)
    requires TakenOnce(a, merged) && TakenOnce(b, merged + Taken(a))
    ensures TakenOnce(a + b, merged)
  {
    forall i, j | 0 <= i < |a| && 0 <= j < |b| ensures a[i].absorbed.id != b[j].absorbed.id {
      assert a[i] in a && b[j] in b;
    }
  }

  /** The merges into one keeper: as long as it is there, of mergeable later records. */
  ghost predicate AllInto(threshold: real, keeper: Memory, later: seq<Memory>, ms: seq<Merge>) {
    forall x :: x in ms ==> x.keeper == keeper.id && x.absorbed in later && Mergeable(threshold, keeper, x.absorbed)
  }

  lemma {:induction false} IntoIsSound(
      threshold: real, keeper: Memory, later: seq<Memory>, keys: set<MemoryId>, merged: set<MemoryId>)
    ensures var ms := MergesInto(threshold, keeper, later, keys, merged);
            Follows(keys, ms) && TakenOnce(ms, merged) && AllInto(threshold, keeper, later, ms)
    decreases |later|
  {
    hide Mergeable;
    if later != [] {
      var m, rest := later[0], later[1..];
      assert later == [m] + rest;
      if m.id !in merged && Mergeable(threshold, keeper, m) && keeper.id in keys {
        IntoIsSound(threshold, keeper, rest, keys - {m.id}, merged + {m.id});
        var one := [Merge(keeper.id, m)];
        var ms := MergesInto(threshold, keeper, rest, keys - {m.id}, merged + {m.id});
        OneFollows(keys, one[0]);
        MergesInTurn(map[], keys, one, ms);
        TakenOnceJoin(one, ms, merged);
      } else {
        IntoIsSound(threshold, keeper, rest, keys, merged);
      }
    }
  }

  lemma OneFollows(keys: set<MemoryId>, x: Merge)
    ensures Follows(keys, [x]) <==> x.keeper in keys
    ensures Taken([x]) == {x.absorbed.id}
  {
    assert [x][..0] == [];
  }

  lemma {:induction false} MergesAreSound(
      threshold: real, group: seq<Memory>, keys: set<MemoryId>, merged: set<MemoryId>)
    ensures var ms := MergesOf(threshold, group, keys, merged);
            && Follows(keys, ms) && TakenOnce(ms, merged)
            && forall x :: x in ms ==> WithinGroup(threshold, group, x)
    decreases |group|
  {
    hide Mergeable, MergesInto;
    if group != [] {
      var first := MergesIntoFirst(threshold, group, keys, merged);
      FirstIsSound(threshold, group, keys, merged);
      var rest := MergesOf(threshold, group[1..], keys - Taken(first), merged + Taken(first));
      MergesAreSound(threshold, group[1..], keys - Taken(first), merged + Taken(first));
      MergesInTurn(map[], keys, first, rest);
      TakenOnceJoin(first, rest, merged);
      forall x | x in rest ensures WithinGroup(threshold, group, x) {
        LaterIsWithin(threshold, group, x);
      }
    }
  }

  lemma FirstIsSound(threshold: real, group: seq<Memory>, keys: set<MemoryId>, merged: set<MemoryId>)
    requires group != []
    ensures var first := MergesIntoFirst(threshold, group, keys, merged);
            && Follows(keys, first) && TakenOnce(first, merged)
            && AllInto(threshold, group[0], group[1..], first)
            && forall x :: x in first ==> WithinGroup(threshold, group, x)
  {
    hide Mergeable, MergesInto;
    IntoIsSound(threshold, group[0], group[1..], keys, merged);
    var first := MergesIntoFirst(threshold, group, keys, merged);
    forall x | x in first ensures WithinGroup(threshold, group, x) {
      var k :| 0 <= k < |group[1..]| && group[1..][k] == x.absorbed;
      assert group[k + 1] == x.absorbed;
    }
  }

  lemma LaterIsWithin(threshold: real, group: seq<Memory>, x: Merge)
    requires group != [] && WithinGroup(threshold, group[1..], x)
    ensures WithinGroup(threshold, group, x)
  {
    hide Mergeable;
    var a, b :| 0 <= a < b < |group[1..]| && group[1..][a].id == x.keeper && group[1..][b] == x.absorbed
      && Mergeable(threshold, group[1..][a], group[1..][b]);
    assert group[a + 1] == group[1..][a] && group[b + 1] == group[1..][b];
  }

  // ----- Batches that list no record twice -----

  lemma TailIsUnique(group: seq<Memory>)
    requires UniqueIds(group) && group != []
    ensures UniqueIds(group[1..]) && group[0].id !in Ids(group[1..])
    ensures Ids(group) == {group[0].id} + Ids(group[1..])
  {
    forall i, j | 0 <= i < j < |group[1..]| ensures group[1..][i].id != group[1..][j].id {
      assert group[1..][i] == group[i + 1] && group[1..][j] == group[j + 1];
    }
    forall m | m in group[1..] ensures m.id != group[0].id {
      var k :| 0 <= k < |group[1..]| && group[1..][k] == m;
      assert group[k + 1] == m;
    }
    assert group == [group[0]] + group[1..];
  }

  lemma NamesAreOfTheGroup(threshold: real, group: seq<Memory>, keys: set<MemoryId>, merged: set<MemoryId>)
    ensures var ms := MergesOf(threshold, group, keys, merged);
            Taken(ms) <= Ids(group) && Keepers(ms) <= Ids(group)
  {
    hide Mergeable, MergesOf;
    MergesAreSound(threshold, group, keys, merged);
    forall x | x in MergesOf(threshold, group, keys, merged)
      ensures x.absorbed.id in Ids(group) && x.keeper in Ids(group)
    {
      var a, b :| 0 <= a < b < |group| && group[a].id == x.keeper && group[b] == x.absorbed
        && Mergeable(threshold, group[a], group[b]);
      assert group[a] in group && group[b] in group;
    }
  }

  /** A record that others were merged into is not merged away. */
  lemma {:induction false} KeepersStay(
      threshold: real, group: seq<Memory>, keys: set<MemoryId>, merged: set<MemoryId>)
    requires UniqueIds(group)
    ensures var ms := MergesOf(threshold, group, keys, merged);
            Keepers(ms) !! Taken(ms) && Keepers(ms) !! merged && Keepers(ms) <= keys
    decreases |group|
  {
    hide Mergeable, MergesInto;
    if group != [] {
      var first := MergesIntoFirst(threshold, group, keys, merged);
      var rest := MergesOf(threshold, group[1..], keys - Taken(first), merged + Taken(first));
      TailIsUnique(group);
      FirstIsSound(threshold, group, keys, merged);
      KeepersStay(threshold, group[1..], keys - Taken(first), merged + Taken(first));
      NamesAreOfTheGroup(threshold, group[1..], keys - Taken(first), merged + Taken(first));
      MergesInTurn(map[], keys, first, rest);
      assert Taken(first) <= Ids(group[1..]);
      if first != [] {
        FirstKeeperIsThere(keys, first);
      }
    }
  }

  lemma {:induction false} FirstKeeperIsThere(keys: set<MemoryId>, ms: seq<Merge>)
    requires Follows(keys, ms) && ms != []
    ensures ms[0].keeper in keys
  {
    if |ms| > 1 {
      FirstKeeperIsThere(keys, ms[..|ms| - 1]);
    }
  }

  /** Record `b` of a group has an earlier one, which is left, that it was mergeable into. */
  ghost predicate HasEarlier(threshold: real, group: seq<Memory>, after: set<MemoryId>, b: nat)
    requires b < |group|
  {
    exists a :: 0 <= a < b && group[a].id in after && Mergeable(threshold, group[a], group[b])
  }

  /** Of the records of a group no two are left that are mergeable, and each that has gone
      has an earlier one, which is left, that it was mergeable into. */
  ghost predicate GroupDone(
      threshold: real, group: seq<Memory>, before: set<MemoryId>, after: set<MemoryId>)
  {
    && (forall a, b :: 0 <= a < b < |group| && group[a].id in after && group[b].id in after ==>
          !Mergeable(threshold, group[a], group[b]))
    && forall b :: 0 <= b < |group| && group[b].id in before && group[b].id !in after ==>
         HasEarlier(threshold, group, after, b)
  }

  /** All mergeable later records are merged into a keeper that the store has. */
  lemma {:induction false} AllAreTaken(
      threshold: real, keeper: Memory, later: seq<Memory>, keys: set<MemoryId>, merged: set<MemoryId>)
    requires keeper.id in keys && keeper.id !in Ids(later)
    ensures var ms := MergesInto(threshold, keeper, later, keys, merged);
            forall m :: m in later && m.id !in merged && Mergeable(threshold, keeper, m) ==> m.id in Taken(ms)
    decreases |later|
  {
    hide Mergeable;
    if later != [] {
      var m, rest := later[0], later[1..];
      assert later == [m] + rest;
      if m.id !in merged && Mergeable(threshold, keeper, m) {
        AllAreTaken(threshold, keeper, rest, keys - {m.id}, merged + {m.id});
        var one := [Merge(keeper.id, m)];
        MergesInTurn(map[], keys, one, MergesInto(threshold, keeper, rest, keys - {m.id}, merged + {m.id}));
        OneFollows(keys, one[0]);
      } else {
        AllAreTaken(threshold, keeper, rest, keys, merged);
      }
    }
  }

  lemma EmptyIsDone(threshold: real, before: set<MemoryId>, after: set<MemoryId>)
    ensures GroupDone(threshold, [], before, after)
  {
  }

  lemma {:induction false} GroupIsDone(
      threshold: real, group: seq<Memory>, keys: set<MemoryId>, merged: set<MemoryId>)
    requires UniqueIds(group) && keys !! merged
    ensures GroupDone(threshold, group, keys, keys - Taken(MergesOf(threshold, group, keys, merged)))
    decreases |group|
  {
    hide Mergeable, MergesInto, MergesIntoFirst, GroupDone, TakesMergeable;
    if group == [] {
      EmptyIsDone(threshold, keys, keys - Taken(MergesOf(threshold, group, keys, merged)));
    } else {
      var first := MergesIntoFirst(threshold, group, keys, merged);
      var rest := MergesOf(threshold, group[1..], keys - Taken(first), merged + Taken(first));
      TailIsUnique(group);
      NamesAreOfTheGroup(threshold, group[1..], keys - Taken(first), merged + Taken(first));
      MergesInTurn(map[], keys, first, rest);
      GroupIsDone(threshold, group[1..], keys - Taken(first), merged + Taken(first));
      FirstTakes(threshold, group, keys, merged);
      assert group == [group[0]] + group[1..];
      assert keys - (Taken(first) + Taken(rest)) == keys - Taken(first) - Taken(rest);
      FirstAndRestDone(threshold, group[0], group[1..], keys, Taken(first), keys - Taken(first) - Taken(rest));
    }
  }

  /** What the first record takes: nothing, or exactly the mergeable records that are there. */
  ghost predicate TakesMergeable(
      threshold: real, h: Memory, tail: seq<Memory>, keys: set<MemoryId>, taken: set<MemoryId>)
  {
    && (forall m :: m in tail && h.id in keys && m.id in keys && Mergeable(threshold, h, m) ==> m.id in taken)
    && forall m :: m in tail && m.id in taken ==> h.id in keys && Mergeable(threshold, h, m)
  }

  lemma FirstTakes(threshold: real, group: seq<Memory>, keys: set<MemoryId>, merged: set<MemoryId>)
    requires UniqueIds(group) && group != [] && keys !! merged
    ensures var taken := Taken(MergesIntoFirst(threshold, group, keys, merged));
            TakesMergeable(threshold, group[0], group[1..], keys, taken) && taken <= Ids(group[1..])
  {
    hide Mergeable, MergesInto;
    var first := MergesIntoFirst(threshold, group, keys, merged);
    TailIsUnique(group);
    FirstIsSound(threshold, group, keys, merged);
    if group[0].id in keys {
      AllAreTaken(threshold, group[0], group[1..], keys, merged);
    }
    forall m | m in group[1..] && m.id in Taken(first)
      ensures group[0].id in keys && Mergeable(threshold, group[0], m)
    {
      FirstKeeperIsThere(keys, first);
      var x :| x in first && x.absorbed.id == m.id;
      SameRecord(group[1..], x.absorbed, m);
    }
  }

  lemma SameRecord(batch: seq<Memory>, x: Memory, y: Memory)
    requires UniqueIds(batch) && x in batch && y in batch && x.id == y.id
    ensures x == y
  {
    var i :| 0 <= i < |batch| && batch[i] == x;
    var j :| 0 <= j < |batch| && batch[j] == y;
    assert i == j;
  }

  lemma FirstAndRestDone(
      threshold: real, h: Memory, tail: seq<Memory>, keys: set<MemoryId>, taken: set<MemoryId>, after: set<MemoryId>)
    requires h.id !in Ids(tail) && taken <= Ids(tail) && after <= keys - taken && keys - after <= Ids(tail)
    requires GroupDone(threshold, tail, keys - taken, after) && TakesMergeable(threshold, h, tail, keys, taken)
    ensures GroupDone(threshold, [h] + tail, keys, after)
  {
    hide Mergeable;
    var group := [h] + tail;
    forall a, b | 0 <= a < b < |group| && group[a].id in after && group[b].id in after
      ensures !Mergeable(threshold, group[a], group[b])
    {
      assert group[b] == tail[b - 1] && tail[b - 1] in tail;
      if a > 0 {
        assert group[a] == tail[a - 1];
      }
    }
    forall b | 0 <= b < |group| && group[b].id in keys && group[b].id !in after
      ensures HasEarlier(threshold, group, after, b)
    {
      assert b > 0;
      EarlierInWhole(threshold, h, tail, keys, taken, after, b - 1);
    }
  }

  lemma EarlierInWhole(
      threshold: real, h: Memory, tail: seq<Memory>, keys: set<MemoryId>, taken: set<MemoryId>, after: set<MemoryId>,
      b: nat)
    requires b < |tail| && h.id !in Ids(tail) && keys - after <= Ids(tail)
    requires GroupDone(threshold, tail, keys - taken, after) && TakesMergeable(threshold, h, tail, keys, taken)
    requires tail[b].id in keys && tail[b].id !in after
    ensures HasEarlier(threshold, [h] + tail, after, b + 1)
  {
    hide Mergeable;
    var group := [h] + tail;
    assert group[b + 1] == tail[b] && tail[b] in tail;
    if tail[b].id in taken {
      assert group[0] == h && h.id in after;
    } else {
      assert HasEarlier(threshold, tail, after, b);
      var a :| 0 <= a < b && tail[a].id in after && Mergeable(threshold, tail[a], tail[b]);
      assert group[a + 1] == tail[a];
    }
  }

  // ----- What is kept of an up-to-date batch -----

  /** The store has the merged records as the batch has them. */
  ghost predicate UpToDate(d: Records, ms: seq<Merge>) {
    forall x :: x in ms ==> x.absorbed.id in d && d[x.absorbed.id] == x.absorbed
  }

  lemma {:induction false} MergesConserve(d: Records, ms: seq<Merge>)
    requires Follows(d.Keys, ms) && TakenOnce(ms, {}) && Keepers(ms) !! Taken(ms) && UpToDate(d, ms)
    ensures Conserves(d, AfterMerges(d, ms))
  {
    hide Conserves, Merged;
    if ms == [] {
      NothingIsConserved(d);
    } else {
      var n, x := |ms| - 1, ms[|ms| - 1];
      var before := AfterMerges(d, ms[..n]);
      LastMerge(d, ms);
      MergesConserve(d, ms[..n]);
      MergeConserves(before, x.keeper, x.absorbed);
      ConservesChain(d, before, AfterMerges(d, ms));
    }
  }

  /** The last of several merges: its keeper is in the store, and the record it takes is
      there as it was. */
  lemma LastMerge(d: Records, ms: seq<Merge>)
    requires ms != [] && Follows(d.Keys, ms) && TakenOnce(ms, {}) && Keepers(ms) !! Taken(ms)
    ensures var n, x := |ms| - 1, ms[|ms| - 1];
            var before := AfterMerges(d, ms[..n]);
            && Follows(d.Keys, ms[..n]) && TakenOnce(ms[..n], {}) && Keepers(ms[..n]) !! Taken(ms[..n])
            && (forall y :: y in ms[..n] ==> y in ms)
            && x.keeper in before && x.keeper in d && x.keeper != x.absorbed.id
            && (x.absorbed.id in before <==> x.absorbed.id in d)
            && (x.absorbed.id in d ==> before[x.absorbed.id] == d[x.absorbed.id])
            && AfterMerges(d, ms) == Merged(before, x.keeper, x.absorbed)
            && Keepers(ms) == Keepers(ms[..n]) + {x.keeper} && Taken(ms) == Taken(ms[..n]) + {x.absorbed.id}
  {
    hide Merged, AfterMerge, AfterMerges, TakenOnce, Taken, Keepers;
    var n, x := |ms| - 1, ms[|ms| - 1];
    assert ms == ms[..n] + [x];
    OneMoreMerge(d, d.Keys, ms[..n], x);
    KeysAfterMerges(d, ms[..n]);
    LastIsNew(ms);
    UnnamedStay(d, ms[..n], x.absorbed.id);
    MadeMerge(AfterMerges(d, ms[..n]), x);
  }

  lemma MadeMerge(d: Records, x: Merge)
    requires x.keeper in d
    ensures AfterMerge(d, x) == Merged(d, x.keeper, x.absorbed)
  {
  }

  lemma LastIsNew(ms: seq<Merge>)
    requires TakenOnce(ms, {}) && ms != []
    ensures TakenOnce(ms[..|ms| - 1], {}) && ms[|ms| - 1].absorbed.id !in Taken(ms[..|ms| - 1])
    ensures forall y :: y in ms[..|ms| - 1] ==> y in ms
  {
    var n := |ms| - 1;
    forall y | y in ms[..n] ensures y.absorbed.id != ms[n].absorbed.id {
      var i :| 0 <= i < n && ms[i] == y;
    }
  }

  // ----- Merges of different records commute -----

  function Names(ms: seq<Merge>): set<MemoryId> {
    Taken(ms) + Keepers(ms)
  }

  lemma TwoCommute(d: Records, x: Merge, y: Merge)
    requires {x.keeper, x.absorbed.id} !! {y.keeper, y.absorbed.id}
    ensures AfterMerge(AfterMerge(d, x), y) == AfterMerge(AfterMerge(d, y), x)
  {
    hide Absorb;
  }

  lemma {:induction false} OneCommutes(d: Records, x: Merge, ms: seq<Merge>)
    requires {x.keeper, x.absorbed.id} !! Names(ms)
    ensures AfterMerges(AfterMerge(d, x), ms) == AfterMerge(AfterMerges(d, ms), x)
  {
    hide AfterMerge;
    if ms != [] {
      var n := |ms| - 1;
      assert ms == ms[..n] + [ms[n]];
      OneMoreMerge(d, {}, ms[..n], ms[n]);
      OneCommutes(d, x, ms[..n]);
      TwoCommute(AfterMerges(d, ms[..n]), x, ms[n]);
    }
  }

  lemma {:induction false} MergesCommute(d: Records, a: seq<Merge>, b: seq<Merge>)
    requires Names(a) !! Names(b)
    ensures AfterMerges(AfterMerges(d, a), b) == AfterMerges(AfterMerges(d, b), a)
  {
    hide AfterMerge;
    if a != [] {
      var n := |a| - 1;
      assert a == a[..n] + [a[n]];
      OneMoreMerge(d, {}, a[..n], a[n]);
      OneCommutes(AfterMerges(d, a[..n]), a[n], b);
      MergesCommute(d, a[..n], b);
    }
  }

  // ----- Records outside the group do not matter -----

  /** The two sets hold the same of these identifiers. */
  predicate AgreeOn(ids: set<MemoryId>, a: set<MemoryId>, b: set<MemoryId>) {
    a * ids == b * ids
  }

  lemma {:induction false} IntoAgrees(
      threshold: real, keeper: Memory, later: seq<Memory>, keys: set<MemoryId>, merged: set<MemoryId>,
      otherKeys: set<MemoryId>, otherMerged: set<MemoryId>)
    requires AgreeOn({keeper.id} + Ids(later), keys, otherKeys) && AgreeOn(Ids(later), merged, otherMerged)
    ensures MergesInto(threshold, keeper, later, keys, merged) ==
            MergesInto(threshold, keeper, later, otherKeys, otherMerged)
    decreases |later|
  {
    hide Mergeable;
    if later != [] {
      var m, rest := later[0], later[1..];
      assert later == [m] + rest && Ids(later) == {m.id} + Ids(rest);
      assert keeper.id in keys <==> keeper.id in otherKeys by {
        assert keeper.id in keys * ({keeper.id} + Ids(later)) <==> keeper.id in otherKeys * ({keeper.id} + Ids(later));
      }
      assert m.id in merged <==> m.id in otherMerged by {
        assert m.id in merged * Ids(later) <==> m.id in otherMerged * Ids(later);
      }
      AgreeOnFewer({keeper.id} + Ids(later), {keeper.id} + Ids(rest), keys, otherKeys, {m.id});
      AgreeOnFewer(Ids(later), Ids(rest), merged, otherMerged, {m.id});
      if m.id !in merged && Mergeable(threshold, keeper, m) && keeper.id in keys {
        IntoAgrees(threshold, keeper, rest, keys - {m.id}, merged + {m.id}, otherKeys - {m.id}, otherMerged + {m.id});
      } else {
        IntoAgrees(threshold, keeper, rest, keys, merged, otherKeys, otherMerged);
      }
    }
  }

  lemma AgreeOnFewer(
      ids: set<MemoryId>, fewer: set<MemoryId>, a: set<MemoryId>, b: set<MemoryId>, c: set<MemoryId>)
    requires AgreeOn(ids, a, b) && fewer <= ids
    ensures AgreeOn(fewer, a, b) && AgreeOn(fewer, a - c, b - c) && AgreeOn(fewer, a + c, b + c)
  {
    forall x | x in fewer ensures x in a <==> x in b {
      assert x in a * ids <==> x in b * ids;
    }
  }

  lemma {:induction false} OthersDoNotMatter(
      threshold: real, group: seq<Memory>, keys: set<MemoryId>, merged: set<MemoryId>,
      otherKeys: set<MemoryId>, otherMerged: set<MemoryId>)
    requires AgreeOn(Ids(group), keys, otherKeys) && AgreeOn(Ids(group), merged, otherMerged)
    ensures MergesOf(threshold, group, keys, merged) == MergesOf(threshold, group, otherKeys, otherMerged)
    decreases |group|
  {
    hide Mergeable, MergesInto, AgreeOn;
    if group != [] {
      var h, rest := group[0], group[1..];
      assert group == [h] + rest && Ids(group) == {h.id} + Ids(rest);
      AgreeAt(Ids(group), h.id, merged, otherMerged);
      var first := MergesIntoFirst(threshold, group, keys, merged);
      AgreeOnFewer(Ids(group), Ids(rest), keys, otherKeys, Taken(first));
      AgreeOnFewer(Ids(group), Ids(rest), merged, otherMerged, Taken(first));
      IntoAgrees(threshold, h, rest, keys, merged, otherKeys, otherMerged);
      OthersDoNotMatter(threshold, rest, keys - Taken(first), merged + Taken(first),
                        otherKeys - Taken(first), otherMerged + Taken(first));
    }
  }

  lemma AgreeAt(ids: set<MemoryId>, x: MemoryId, a: set<MemoryId>, b: set<MemoryId>)
    requires AgreeOn(ids, a, b) && x in ids
    ensures x in a <==> x in b
  {
    assert x in a * ids <==> x in b * ids;
  }
}
