/** Greedy merging of similar memories, kind by kind and from the oldest on: what the loops
    compute for any batch, and what that means for a batch that lists no record twice. */
module Consolidation {
  import opened Prelude
  import opened Memories
  import opened Merges
  import opened Ledgers

  datatype StoreError = NotFound(id: MemoryId)

  class MemoryStore {
    var data: Records

    ghost predicate Valid()
      reads this
    {
      forall id :: id in data ==> data[id].id == id
    }

    constructor (data: Records)
      requires forall id :: id in data ==> data[id].id == id
      ensures Valid() && this.data == data
    {
      this.data := data;
    }

    function Retrieve(id: MemoryId): Option<Memory>
      reads this
    {
      if id in data then Some(data[id]) else None
    }

    method Update(m: Memory) returns (r: Result<(), StoreError>)
      requires Valid()
      modifies this
      ensures Valid()
      ensures r == if m.id in old(data) then Ok(()) else Err(NotFound(m.id))
      ensures data == if r.Ok? then old(data)[m.id := m] else old(data)
    {
      if m.id !in data {
        return Err(NotFound(m.id));
      }
      data := data[m.id := m];
      r := Ok(());
    }

    /** Deletes a record; without effect on an unknown one. */
    method Delete(id: MemoryId)
      requires Valid()
      modifies this
      ensures Valid() && data == old(data) - {id}
    {
      data := data - {id};
    }
  }

  // ----- Groups of one kind -----

  predicate Older(a: Memory, b: Memory) {
    a.createdAt < b.createdAt || (a.createdAt == b.createdAt && a.id < b.id)
  }

  ghost predicate SortedByAge(group: seq<Memory>) {
    forall i, j :: 0 <= i < j < |group| ==> Older(group[i], group[j])
  }

  /** Inserts a record by age. */
  function InsertByAge(m: Memory, sorted: seq<Memory>): (r: seq<Memory>)
    ensures forall x :: x in r <==> x == m || x in sorted
    ensures SortedByAge(sorted) && (forall x :: x in sorted ==> x.id != m.id) ==> SortedByAge(r)
  {
    if sorted == [] then [m]
    else if Older(m, sorted[0]) then
      InsertedFirst(m, sorted);
      [m] + sorted
    else
      InsertedLater(m, sorted, InsertByAge(m, sorted[1..]));
      [sorted[0]] + InsertByAge(m, sorted[1..])
  }

  lemma InsertedFirst(m: Memory, sorted: seq<Memory>)
    requires sorted != [] && Older(m, sorted[0])
    ensures SortedByAge(sorted) ==> SortedByAge([m] + sorted)
  {
    if SortedByAge(sorted) {
      forall j | 0 <= j < |sorted| ensures Older(m, sorted[j]) {
        assert j > 0 ==> Older(sorted[0], sorted[j]);
      }
    }
  }

  lemma InsertedLater(m: Memory, sorted: seq<Memory>, rest: seq<Memory>)
    requires sorted != [] && !Older(m, sorted[0])
    requires forall x :: x in rest <==> x == m || x in sorted[1..]
    requires SortedByAge(sorted[1..]) && (forall x :: x in sorted[1..] ==> x.id != m.id) ==> SortedByAge(rest)
    ensures forall x :: x in [sorted[0]] + rest <==> x == m || x in sorted
    ensures SortedByAge(sorted) && (forall x :: x in sorted ==> x.id != m.id) ==> SortedByAge([sorted[0]] + rest)
  {
    assert sorted == [sorted[0]] + sorted[1..];
    if SortedByAge(sorted) && forall x :: x in sorted ==> x.id != m.id {
      assert SortedByAge(sorted[1..]);
      forall j | 0 <= j < |rest| ensures Older(sorted[0], rest[j]) {
        assert rest[j] in rest;
        if rest[j] != m {
          var k :| 0 <= k < |sorted[1..]| && sorted[1..][k] == rest[j];
          assert Older(sorted[0], sorted[k + 1]);
        }
      }
    }
  }

  /** The records of one kind, sorted by age. */
  function GroupOf(memories: seq<Memory>, kind: string): (group: seq<Memory>)
    ensures forall m :: m in group <==> m in memories && m.kind == kind
  {
    if memories == [] then []
    else
      var n := |memories| - 1;
      assert memories == memories[..n] + [memories[n]];
      var group := GroupOf(memories[..n], kind);
      if memories[n].kind == kind then InsertByAge(memories[n], group) else group
  }

  /** No record is listed after a younger one. */
  ghost predicate InAgeOrder(group: seq<Memory>) {
    forall i, j :: 0 <= i < j < |group| ==> !Older(group[j], group[i])
  }

  lemma {:induction false} InsertKeepsAgeOrder(m: Memory, group: seq<Memory>)
    requires InAgeOrder(group)
    ensures InAgeOrder(InsertByAge(m, group))
  {
    if group == [] {
    } else if Older(m, group[0]) {
      forall j | 0 <= j < |group| ensures !Older(group[j], m) {
        assert j > 0 ==> !Older(group[j], group[0]);
      }
    } else {
      var rest := InsertByAge(m, group[1..]);
      InsertKeepsAgeOrder(m, group[1..]);
      forall j | 0 <= j < |rest| ensures !Older(rest[j], group[0]) {
        assert rest[j] in rest;
        if rest[j] != m {
          var k :| 0 <= k < |group[1..]| && group[1..][k] == rest[j];
          assert group[k + 1] == rest[j];
        }
      }
    }
  }

  lemma {:induction false} GroupInAgeOrder(memories: seq<Memory>, kind: string)
    ensures InAgeOrder(GroupOf(memories, kind))
  {
    if memories != [] {
      var n := |memories| - 1;
      GroupInAgeOrder(memories[..n], kind);
      InsertKeepsAgeOrder(memories[n], GroupOf(memories[..n], kind));
    }
  }

  lemma {:induction false} GroupIsSorted(memories: seq<Memory>, kind: string)
    requires UniqueIds(memories)
    ensures SortedByAge(GroupOf(memories, kind))
  {
    if memories != [] {
      var n := |memories| - 1;
      GroupIsSorted(memories[..n], kind);
      forall x | x in GroupOf(memories[..n], kind) ensures x.id != memories[n].id {
        var k :| 0 <= k < n && memories[..n][k] == x;
        assert memories[k].id != memories[n].id;
      }
    }
  }

  lemma GroupIsUnique(memories: seq<Memory>, kind: string)
    requires UniqueIds(memories)
    ensures UniqueIds(GroupOf(memories, kind))
  {
    var group := GroupOf(memories, kind);
    GroupIsSorted(memories, kind);
    forall i, j | 0 <= i < j < |group| ensures group[i].id != group[j].id {
      assert group[i] in group && group[j] in group;
      if group[i].id == group[j].id {
        SameRecord(memories, group[i], group[j]);
      }
    }
  }

  /** No record is listed with two kinds. */
  ghost predicate KindsApart(memories: seq<Memory>) {
    forall x, y :: x in memories && y in memories && x.id == y.id ==> x.kind == y.kind
  }

  lemma UniqueAreApart(memories: seq<Memory>)
    ensures UniqueIds(memories) ==> KindsApart(memories)
  {
    if UniqueIds(memories) {
      forall x, y | x in memories && y in memories && x.id == y.id ensures x.kind == y.kind {
        SameRecord(memories, x, y);
      }
    }
  }

  /** Groups of different kinds have no identifier in common. */
  lemma GroupsAreApart(memories: seq<Memory>, kind: string, other: string)
    requires KindsApart(memories) && kind != other
    ensures Ids(GroupOf(memories, kind)) !! Ids(GroupOf(memories, other))
  {
  }

  // ----- The merges of a batch -----

  /** The merges made when the kinds of a batch are taken in this order. */
  function MergesByKinds(
      threshold: real, memories: seq<Memory>, kinds: seq<string>, keys: set<MemoryId>): seq<Merge>
  {
    if kinds == [] then []
    else
      var n := |kinds| - 1;
      var before := MergesByKinds(threshold, memories, kinds[..n], keys);
      before + MergesOf(threshold, GroupOf(memories, kinds[n]), keys - Taken(before), Taken(before))
  }

  /** The kinds of a batch, in the order in which it lists them first. */
  function KindsOf(memories: seq<Memory>): (kinds: seq<string>)
    ensures Distinct(kinds) && Elements(kinds) == set m | m in memories :: m.kind
  {
    if memories == [] then []
    else
      var n := |memories| - 1;
      assert memories == memories[..n] + [memories[n]];
      var kinds := KindsOf(memories[..n]);
      assert memories[n].kind !in kinds ==>
          Elements(kinds + [memories[n].kind]) == Elements(kinds) + {memories[n].kind};
      assert memories[n].kind in kinds <==> memories[n].kind in Elements(kinds);
      if memories[n].kind in kinds then kinds else kinds + [memories[n].kind]
  }

  /** The merges of a batch from a store with these keys, kinds in the batch's order. */
  function BatchMerges(threshold: real, memories: seq<Memory>, keys: set<MemoryId>): seq<Merge> {
    MergesByKinds(threshold, memories, KindsOf(memories), keys)
  }

  /** What merging a batch makes of a store. */
  function Consolidated(threshold: real, memories: seq<Memory>, d: Records): Records {
    AfterMerges(d, BatchMerges(threshold, memories, d.Keys))
  }

  /** The identifiers of the records of some kinds. */
  function IdsOfKinds(memories: seq<Memory>, kinds: set<string>): set<MemoryId> {
    set m | m in memories && m.kind in kinds :: m.id
  }

  lemma OneMoreKind(memories: seq<Memory>, kinds: set<string>, kind: string)
    ensures IdsOfKinds(memories, kinds + {kind}) == IdsOfKinds(memories, kinds) + Ids(GroupOf(memories, kind))
    ensures KindsApart(memories) && kind !in kinds ==> IdsOfKinds(memories, kinds) !! Ids(GroupOf(memories, kind))
  {
  }

  lemma {:induction false} KindsAreSound(
      threshold: real, memories: seq<Memory>, kinds: seq<string>, keys: set<MemoryId>)
    ensures var ms := MergesByKinds(threshold, memories, kinds, keys);
            Follows(keys, ms) && TakenOnce(ms, {}) && Names(ms) <= IdsOfKinds(memories, Elements(kinds))
  {
    hide MergesOf, GroupOf, IdsOfKinds, Follows, TakenOnce, Taken, Keepers;
    if kinds == [] {
      NoMerge(map[], keys);
      NoneTaken();
    } else {
      var n := |kinds| - 1;
      assert kinds == kinds[..n] + [kinds[n]];
      assert Elements(kinds) == Elements(kinds[..n]) + {kinds[n]};
      var before := MergesByKinds(threshold, memories, kinds[..n], keys);
      var group := GroupOf(memories, kinds[n]);
      KindsAreSound(threshold, memories, kinds[..n], keys);
      MergesAreSound(threshold, group, keys - Taken(before), Taken(before));
      NamesAreOfTheGroup(threshold, group, keys - Taken(before), Taken(before));
      var more := MergesOf(threshold, group, keys - Taken(before), Taken(before));
      MergesInTurn(map[], keys, before, more);
      OneMoreKind(memories, Elements(kinds[..n]), kinds[n]);
      assert {} + Taken(before) == Taken(before);
      TakenOnceJoin(before, more, {});
    }
  }

  lemma NoneTaken()
    ensures TakenOnce([], {})
  {
  }

  // ----- Kinds in any order -----

  /** The merges of one kind, as if it were the only one. */
  function OwnMerges(threshold: real, memories: seq<Memory>, kind: string, keys: set<MemoryId>): seq<Merge> {
    MergesOf(threshold, GroupOf(memories, kind), keys, {})
  }

  function OwnOfAll(threshold: real, memories: seq<Memory>, kinds: seq<string>, keys: set<MemoryId>): seq<Merge> {
    if kinds == [] then []
    else OwnOfAll(threshold, memories, kinds[..|kinds| - 1], keys) +
         OwnMerges(threshold, memories, kinds[|kinds| - 1], keys)
  }

  /** With no record listed with two kinds, kinds do not influence one another. */
  lemma {:induction false} EachKindIsItsOwn(
      threshold: real, memories: seq<Memory>, kinds: seq<string>, keys: set<MemoryId>)
    requires KindsApart(memories) && Distinct(kinds)
    ensures MergesByKinds(threshold, memories, kinds, keys) == OwnOfAll(threshold, memories, kinds, keys)
  {
    hide MergesOf, GroupOf, IdsOfKinds, KindsApart;
    if kinds != [] {
      var n := |kinds| - 1;
      var before := MergesByKinds(threshold, memories, kinds[..n], keys);
      var group := GroupOf(memories, kinds[n]);
      assert Distinct(kinds[..n]) && kinds[n] !in Elements(kinds[..n]);
      EachKindIsItsOwn(threshold, memories, kinds[..n], keys);
      KindsAreSound(threshold, memories, kinds[..n], keys);
      OneMoreKind(memories, Elements(kinds[..n]), kinds[n]);
      DisjointAgree(Ids(group), keys, Taken(before));
      OthersDoNotMatter(threshold, group, keys - Taken(before), Taken(before), keys, {});
    }
  }

  lemma DisjointAgree(ids: set<MemoryId>, keys: set<MemoryId>, taken: set<MemoryId>)
    requires taken !! ids
    ensures AgreeOn(ids, keys - taken, keys) && AgreeOn(ids, taken, {})
  {
  }

  lemma OwnNames(threshold: real, memories: seq<Memory>, kind: string, keys: set<MemoryId>)
    ensures Names(OwnMerges(threshold, memories, kind, keys)) <= Ids(GroupOf(memories, kind))
  {
    NamesAreOfTheGroup(threshold, GroupOf(memories, kind), keys, {});
  }

  lemma {:induction false} OwnOfAllJoins(
      threshold: real, memories: seq<Memory>, a: seq<string>, b: seq<string>, keys: set<MemoryId>)
    ensures OwnOfAll(threshold, memories, a + b, keys) ==
            OwnOfAll(threshold, memories, a, keys) + OwnOfAll(threshold, memories, b, keys)
    decreases |b|
  {
    hide OwnMerges;
    if b == [] {
      assert a + b == a;
    } else {
      var n := |b| - 1;
      assert (a + b)[..|a + b| - 1] == a + b[..n];
      OwnOfAllJoins(threshold, memories, a, b[..n], keys);
    }
  }

  lemma {:induction false} OwnNamesOfAll(
      threshold: real, memories: seq<Memory>, kinds: seq<string>, keys: set<MemoryId>)
    ensures Names(OwnOfAll(threshold, memories, kinds, keys)) <= IdsOfKinds(memories, Elements(kinds))
  {
    hide OwnMerges, GroupOf, IdsOfKinds;
    if kinds != [] {
      var n := |kinds| - 1;
      assert Elements(kinds) == Elements(kinds[..n]) + {kinds[n]};
      OwnNamesOfAll(threshold, memories, kinds[..n], keys);
      OwnNames(threshold, memories, kinds[n], keys);
      OneMoreKind(memories, Elements(kinds[..n]), kinds[n]);
      MergesInTurn(map[], keys, OwnOfAll(threshold, memories, kinds[..n], keys),
                   OwnMerges(threshold, memories, kinds[n], keys));
    }
  }

  /** A kind may as well be taken last. */
  lemma KindMayBeLast(
      threshold: real, memories: seq<Memory>, a: seq<string>, kind: string, b: seq<string>, d: Records)
    requires KindsApart(memories) && kind !in b
    ensures var own := OwnMerges(threshold, memories, kind, d.Keys);
            AfterMerges(d, OwnOfAll(threshold, memories, a + [kind] + b, d.Keys)) ==
            AfterMerges(d, OwnOfAll(threshold, memories, a + b, d.Keys) + own)
    ensures |OwnOfAll(threshold, memories, a + [kind] + b, d.Keys)| ==
            |OwnOfAll(threshold, memories, a + b, d.Keys)| + |OwnMerges(threshold, memories, kind, d.Keys)|
  {
    hide MergesOf, GroupOf, IdsOfKinds, AfterMerge, AfterMerges, OwnMerges, KindsApart, OwnOfAll, Names;
    var own := OwnMerges(threshold, memories, kind, d.Keys);
    var first, last := OwnOfAll(threshold, memories, a, d.Keys), OwnOfAll(threshold, memories, b, d.Keys);
    OwnOfAllJoins(threshold, memories, a + [kind], b, d.Keys);
    OwnOfAllJoins(threshold, memories, a, b, d.Keys);
    OneMoreOwn(threshold, memories, a, kind, d.Keys);
    OwnNames(threshold, memories, kind, d.Keys);
    OwnNamesOfAll(threshold, memories, b, d.Keys);
    OneMoreKind(memories, Elements(b), kind);
    MergesInTurn(d, d.Keys, first + own, last);
    MergesInTurn(d, d.Keys, first, own);
    MergesInTurn(d, d.Keys, first + last, own);
    MergesInTurn(d, d.Keys, first, last);
    MergesCommute(AfterMerges(d, first), own, last);
  }

  lemma OneMoreOwn(threshold: real, memories: seq<Memory>, a: seq<string>, kind: string, keys: set<MemoryId>)
    ensures OwnOfAll(threshold, memories, a + [kind], keys) ==
            OwnOfAll(threshold, memories, a, keys) + OwnMerges(threshold, memories, kind, keys)
  {
    assert (a + [kind])[..|a|] == a;
  }

  /** The order in which kinds are taken does not matter. */
  lemma {:induction false} KindOrderIsIrrelevant(
      threshold: real, memories: seq<Memory>, kinds: seq<string>, other: seq<string>, d: Records)
    requires KindsApart(memories) && Distinct(kinds) && Distinct(other) && Elements(kinds) == Elements(other)
    ensures AfterMerges(d, OwnOfAll(threshold, memories, kinds, d.Keys)) ==
            AfterMerges(d, OwnOfAll(threshold, memories, other, d.Keys))
    ensures |OwnOfAll(threshold, memories, kinds, d.Keys)| == |OwnOfAll(threshold, memories, other, d.Keys)|
  {
    hide OwnMerges, AfterMerges, KindsApart, OwnOfAll, Distinct;
    DistinctCardinality(kinds);
    DistinctCardinality(other);
    if kinds != [] {
      var n := |kinds| - 1;
      var kind := kinds[n];
      assert kind in Elements(kinds);
      var i :| 0 <= i < |other| && other[i] == kind;
      var a, b := other[..i], other[i + 1..];
      assert other == a + [kind] + b && kinds == kinds[..n] + [kind];
      WithoutOne(kinds[..n], kind, a, b);
      KindMayBeLast(threshold, memories, a, kind, b, d);
      KindOrderIsIrrelevant(threshold, memories, kinds[..n], a + b, d);
      OneMoreOwn(threshold, memories, kinds[..n], kind, d.Keys);
      var own := OwnMerges(threshold, memories, kind, d.Keys);
      MergesInTurn(d, d.Keys, OwnOfAll(threshold, memories, kinds[..n], d.Keys), own);
      MergesInTurn(d, d.Keys, OwnOfAll(threshold, memories, a + b, d.Keys), own);
    }
  }

  lemma WithoutOne(rest: seq<string>, kind: string, a: seq<string>, b: seq<string>)
    requires Distinct(rest + [kind]) && Distinct(a + [kind] + b) && Elements(rest + [kind]) == Elements(a + [kind] + b)
    ensures Distinct(rest) && Distinct(a + b) && Elements(rest) == Elements(a + b) && kind !in b
  {
    DistinctConcat(rest, [kind]);
    DistinctConcat(a + [kind], b);
    DistinctConcat(a, [kind]);
    DistinctConcat(a, b);
    assert kind in Elements([kind]) && Elements([kind]) == {kind};
    assert kind in b <==> kind in Elements(b);
  }

  /** Whatever order the kinds of a batch are taken in, the same becomes of the store. */
  lemma AnyOrderConsolidates(threshold: real, memories: seq<Memory>, kinds: seq<string>, d: Records)
    requires KindsApart(memories) && Distinct(kinds) && Elements(kinds) == Elements(KindsOf(memories))
    ensures AfterMerges(d, MergesByKinds(threshold, memories, kinds, d.Keys)) == Consolidated(threshold, memories, d)
    ensures |MergesByKinds(threshold, memories, kinds, d.Keys)| == |BatchMerges(threshold, memories, d.Keys)|
  {
    hide OwnOfAll, AfterMerges, KindsApart, MergesByKinds, KindsOf;
    EachKindIsItsOwn(threshold, memories, kinds, d.Keys);
    EachKindIsItsOwn(threshold, memories, KindsOf(memories), d.Keys);
    KindOrderIsIrrelevant(threshold, memories, kinds, KindsOf(memories), d);
  }

  // ----- What becomes of a batch that lists no record twice -----

  /** The store still has every record of the batch, if perhaps with other values. */
  ghost predicate Present(d: Records, batch: seq<Memory>) {
    UniqueIds(batch) && forall m :: m in batch ==> m.id in d
  }

  /** The batch is an up-to-date snapshot: the store has every record of it as it is. */
  ghost predicate Fresh(d: Records, batch: seq<Memory>) {
    Present(d, batch) && forall m :: m in batch ==> d[m.id] == m
  }

  /** Only records of the batch have changed or gone. */
  ghost predicate OnlyTouches(batch: seq<Memory>, d: Records, r: Records) {
    && r.Keys <= d.Keys
    && forall id :: id in d && id !in Ids(batch) ==> id in r && r[id] == d[id]
  }

  lemma MergesTouchTheBatch(threshold: real, memories: seq<Memory>, kinds: seq<string>, d: Records)
    ensures var ms := MergesByKinds(threshold, memories, kinds, d.Keys);
            OnlyTouches(memories, d, AfterMerges(d, ms)) && AfterMerges(d, ms).Keys == d.Keys - Taken(ms)
  {
    hide MergesByKinds, AfterMerges, Taken, Keepers;
    var ms := MergesByKinds(threshold, memories, kinds, d.Keys);
    KindsAreSound(threshold, memories, kinds, d.Keys);
    KeysAfterMerges(d, ms);
    forall id | id in d && id !in Ids(memories)
      ensures id in AfterMerges(d, ms) && AfterMerges(d, ms)[id] == d[id]
    {
      assert id !in Names(ms);
      UnnamedStay(d, ms, id);
    }
  }

  lemma {:induction false} OwnKeepersStay(
      threshold: real, memories: seq<Memory>, kinds: seq<string>, keys: set<MemoryId>)
    requires UniqueIds(memories) && Distinct(kinds)
    ensures var ms := OwnOfAll(threshold, memories, kinds, keys);
            Keepers(ms) !! Taken(ms)
  {
    hide KindsApart, OwnMerges, GroupOf, IdsOfKinds, UniqueIds, Taken, Keepers;
    UniqueAreApart(memories);
    if kinds == [] {
      NoMerge(map[], keys);
    } else {
      var n := |kinds| - 1;
      assert Distinct(kinds[..n]) && kinds[n] !in Elements(kinds[..n]);
      OwnKeepersStay(threshold, memories, kinds[..n], keys);
      GroupIsUnique(memories, kinds[n]);
      KeepersOfOne(threshold, memories, kinds[n], keys);
      OwnNames(threshold, memories, kinds[n], keys);
      OwnNamesOfAll(threshold, memories, kinds[..n], keys);
      OneMoreKind(memories, Elements(kinds[..n]), kinds[n]);
      MergesInTurn(map[], keys, OwnOfAll(threshold, memories, kinds[..n], keys),
                   OwnMerges(threshold, memories, kinds[n], keys));
    }
  }

  lemma KeepersOfOne(threshold: real, memories: seq<Memory>, kind: string, keys: set<MemoryId>)
    requires UniqueIds(memories)
    ensures var own := OwnMerges(threshold, memories, kind, keys);
            Keepers(own) !! Taken(own)
  {
    GroupIsUnique(memories, kind);
    KeepersStay(threshold, GroupOf(memories, kind), keys, {});
  }

  lemma BatchIsSound(threshold: real, memories: seq<Memory>, keys: set<MemoryId>)
    requires UniqueIds(memories)
    ensures Sound(keys, BatchMerges(threshold, memories, keys))
  {
    hide KindsApart, OwnOfAll, MergesByKinds, KindsOf, UniqueIds;
    UniqueAreApart(memories);
    KindsAreSound(threshold, memories, KindsOf(memories), keys);
    EachKindIsItsOwn(threshold, memories, KindsOf(memories), keys);
    OwnKeepersStay(threshold, memories, KindsOf(memories), keys);
  }

  // ----- Survivors -----

  /** An older record of the kind of `y` is left that `y` was mergeable into. */
  ghost predicate HasKeeper(threshold: real, memories: seq<Memory>, after: set<MemoryId>, y: Memory) {
    exists x :: x in memories && x.kind == y.kind && Older(x, y) && x.id in after && Mergeable(threshold, x, y)
  }

  /** Of the records of one kind no two are left that are mergeable, and each that has gone
      has an older one that is left. */
  ghost predicate BatchDone(
      threshold: real, memories: seq<Memory>, before: set<MemoryId>, after: set<MemoryId>)
  {
    && (forall x, y :: x in memories && y in memories && x != y && x.kind == y.kind &&
                       x.id in after && y.id in after ==>
          !Mergeable(threshold, x, y))
    && forall y :: y in memories && y.id in before && y.id !in after ==> HasKeeper(threshold, memories, after, y)
  }

  /** The merges of the other kinds do not take records of this one. */
  lemma {:induction false} TakenOfKind(
      threshold: real, memories: seq<Memory>, kinds: seq<string>, kind: string, keys: set<MemoryId>)
    requires KindsApart(memories) && Distinct(kinds) && kind in kinds
    ensures Taken(OwnOfAll(threshold, memories, kinds, keys)) * Ids(GroupOf(memories, kind)) ==
            Taken(OwnMerges(threshold, memories, kind, keys))
  {
    hide OwnMerges, GroupOf, IdsOfKinds, KindsApart, Taken, Keepers;
    var n := |kinds| - 1;
    assert kinds == kinds[..n] + [kinds[n]];
    assert Distinct(kinds[..n]) && kinds[n] !in Elements(kinds[..n]);
    OwnNames(threshold, memories, kinds[n], keys);
    OwnNamesOfAll(threshold, memories, kinds[..n], keys);
    OneMoreKind(memories, Elements(kinds[..n]), kinds[n]);
    MergesInTurn(map[], keys, OwnOfAll(threshold, memories, kinds[..n], keys),
                 OwnMerges(threshold, memories, kinds[n], keys));
    if kind != kinds[n] {
      TakenOfKind(threshold, memories, kinds[..n], kind, keys);
      GroupsAreApart(memories, kind, kinds[n]);
    }
  }

  lemma KindIsDone(threshold: real, memories: seq<Memory>, kind: string, keys: set<MemoryId>)
    requires UniqueIds(memories) && exists m :: m in memories && m.kind == kind
    ensures GroupDone(threshold, GroupOf(memories, kind), keys, keys - Taken(BatchMerges(threshold, memories, keys)))
  {
    hide KindsApart, OwnOfAll, MergesByKinds, GroupOf, UniqueIds, Taken, MergesOf, GroupDone;
    UniqueAreApart(memories);
    var kinds := KindsOf(memories);
    var group := GroupOf(memories, kind);
    assert kind in Elements(kinds);
    GroupIsUnique(memories, kind);
    EachKindIsItsOwn(threshold, memories, kinds, keys);
    TakenOfKind(threshold, memories, kinds, kind, keys);
    GroupIsDone(threshold, group, keys, {});
    DoneOnGroup(threshold, group, keys, Taken(OwnMerges(threshold, memories, kind, keys)),
                Taken(BatchMerges(threshold, memories, keys)));
  }

  /** Whether a group is done depends on its own records only. */
  lemma DoneOnGroup(
      threshold: real, group: seq<Memory>, keys: set<MemoryId>, own: set<MemoryId>, taken: set<MemoryId>)
    requires GroupDone(threshold, group, keys, keys - own) && taken * Ids(group) == own
    ensures GroupDone(threshold, group, keys, keys - taken)
  {
    hide Mergeable;
    forall i | 0 <= i < |group| ensures group[i].id in keys - taken <==> group[i].id in keys - own {
      assert group[i] in group;
      assert group[i].id in taken * Ids(group) <==> group[i].id in own;
    }
    forall b | 0 <= b < |group| && group[b].id in keys && group[b].id !in keys - taken
      ensures HasEarlier(threshold, group, keys - taken, b)
    {
      assert HasEarlier(threshold, group, keys - own, b);
      var a :| 0 <= a < b && group[a].id in keys - own && Mergeable(threshold, group[a], group[b]);
    }
  }

  lemma BatchIsDone(threshold: real, memories: seq<Memory>, keys: set<MemoryId>)
    requires UniqueIds(memories)
    ensures BatchDone(threshold, memories, keys, keys - Taken(BatchMerges(threshold, memories, keys)))
  {
    hide Mergeable, BatchMerges, GroupOf, UniqueIds, Taken, GroupDone;
    var after := keys - Taken(BatchMerges(threshold, memories, keys));
    forall x, y | x in memories && y in memories && x != y && x.kind == y.kind && x.id in after && y.id in after
      ensures !Mergeable(threshold, x, y)
    {
      KindIsDone(threshold, memories, x.kind, keys);
      NoPairIsLeft(threshold, GroupOf(memories, x.kind), keys, after, x, y);
    }
    forall y | y in memories && y.id in keys && y.id !in after ensures HasKeeper(threshold, memories, after, y) {
      KindIsDone(threshold, memories, y.kind, keys);
      GroupIsSorted(memories, y.kind);
      var x := EarlierIsKept(threshold, GroupOf(memories, y.kind), keys, after, y);
    }
  }

  lemma NoPairIsLeft(
      threshold: real, group: seq<Memory>, before: set<MemoryId>, after: set<MemoryId>, x: Memory, y: Memory)
    requires GroupDone(threshold, group, before, after) && x in group && y in group && x != y
    requires x.id in after && y.id in after
    ensures !Mergeable(threshold, x, y)
  {
    hide Mergeable;
    var a :| 0 <= a < |group| && group[a] == x;
    var b :| 0 <= b < |group| && group[b] == y;
    MergeableIsSymmetric(threshold, x, y);
  }

  lemma EarlierIsKept(
      threshold: real, group: seq<Memory>, before: set<MemoryId>, after: set<MemoryId>, y: Memory)
      returns (x: Memory)
    requires GroupDone(threshold, group, before, after) && SortedByAge(group)
    requires y in group && y.id in before && y.id !in after
    ensures x in group && Older(x, y) && x.id in after && Mergeable(threshold, x, y)
  {
    hide Mergeable;
    var b :| 0 <= b < |group| && group[b] == y;
    assert HasEarlier(threshold, group, after, b);
    var a :| 0 <= a < b && group[a].id in after && Mergeable(threshold, group[a], group[b]);
    x := group[a];
  }

  // ----- Counts -----

  lemma {:induction false} TakenCardinality(ms: seq<Merge>)
    requires TakenOnce(ms, {})
    ensures |Taken(ms)| == |ms|
  {
    hide TakenOnce, Taken, Keepers, AfterMerge, AfterMerges;
    if ms == [] {
      NoMerge(map[], {});
    } else {
      var n := |ms| - 1;
      assert ms == ms[..n] + [ms[n]];
      OneMoreMerge(map[], {}, ms[..n], ms[n]);
      LastIsNew(ms);
      TakenCardinality(ms[..n]);
    }
  }

  /** From a store that has the whole batch, as many records go as merges are made. */
  lemma RecordsGone(threshold: real, memories: seq<Memory>, d: Records)
    requires Present(d, memories)
    ensures |BatchMerges(threshold, memories, d.Keys)| == |d| - |Consolidated(threshold, memories, d)|
  {
    hide MergesByKinds, AfterMerges, Taken;
    var ms := BatchMerges(threshold, memories, d.Keys);
    BatchIsSound(threshold, memories, d.Keys);
    KindsAreSound(threshold, memories, KindsOf(memories), d.Keys);
    KeysAfterMerges(d, ms);
    TakenCardinality(ms);
    var r := Consolidated(threshold, memories, d);
    assert Taken(ms) <= d.Keys by {
      forall id | id in Taken(ms) ensures id in d {
        assert id in Names(ms);
      }
    }
    assert |d| == |d.Keys| && |r| == |r.Keys|;
  }

  lemma FreshIsConserved(threshold: real, memories: seq<Memory>, d: Records)
    requires Fresh(d, memories)
    ensures Conserves(d, Consolidated(threshold, memories, d))
  {
    hide MergesByKinds, Conserves;
    var ms := BatchMerges(threshold, memories, d.Keys);
    BatchIsSound(threshold, memories, d.Keys);
    TakenAreOfTheBatch(threshold, memories, KindsOf(memories), d.Keys);
    MergesConserve(d, ms);
  }

  // ----- Which records are merged into which -----

  /** Record `m` may be merged into `k`: they have one kind, owner, conversation and
      provenance, `k` is not the younger one, and they share enough words. */
  ghost predicate MayAbsorb(threshold: real, k: Memory, m: Memory) {
    && k.kind == m.kind && k.sourceAgent == m.sourceAgent && k.sourceConversation == m.sourceConversation
    && SameProvenance(k.tags, m.tags)
    && (k.createdAt < m.createdAt || (k.createdAt == m.createdAt && k.id <= m.id))
    && SharesEnough(threshold, k.words, m.words)
  }

  /** The merge is of a record of the batch into one of the batch that may absorb it. */
  ghost predicate MergesAlike(threshold: real, memories: seq<Memory>, x: Merge) {
    x.absorbed in memories &&
    exists k :: k in memories && k.id == x.keeper && MayAbsorb(threshold, k, x.absorbed)
  }

  lemma GroupMergesAlike(threshold: real, memories: seq<Memory>, kind: string, x: Merge)
    requires WithinGroup(threshold, GroupOf(memories, kind), x)
    ensures MergesAlike(threshold, memories, x)
  {
    hide Mergeable, SameProvenance, SharesEnough, GroupOf;
    var group := GroupOf(memories, kind);
    GroupInAgeOrder(memories, kind);
    var a, b :| 0 <= a < b < |group| && group[a].id == x.keeper && group[b] == x.absorbed
      && Mergeable(threshold, group[a], group[b]);
    MergeableByFields(threshold, group[a], group[b]);
    assert !Older(group[b], group[a]);
    assert group[a] in group && group[b] in group;
  }

  /** Records that differ in kind, owner, conversation or provenance are never merged, nor is
      one into a younger one, whatever the batch lists. */
  lemma {:induction false} OnlyAlikeAreMerged(
      threshold: real, memories: seq<Memory>, kinds: seq<string>, keys: set<MemoryId>)
    ensures forall x :: x in MergesByKinds(threshold, memories, kinds, keys) ==> MergesAlike(threshold, memories, x)
  {
    hide MergesOf, GroupOf, MergesAlike, WithinGroup;
    if kinds != [] {
      var n := |kinds| - 1;
      var before := MergesByKinds(threshold, memories, kinds[..n], keys);
      var group := GroupOf(memories, kinds[n]);
      OnlyAlikeAreMerged(threshold, memories, kinds[..n], keys);
      MergesAreSound(threshold, group, keys - Taken(before), Taken(before));
      forall x | x in MergesOf(threshold, group, keys - Taken(before), Taken(before))
        ensures MergesAlike(threshold, memories, x)
      {
        GroupMergesAlike(threshold, memories, kinds[n], x);
      }
    }
  }

  lemma {:induction false} TakenAreOfTheBatch(
      threshold: real, memories: seq<Memory>, kinds: seq<string>, keys: set<MemoryId>)
    ensures forall x :: x in MergesByKinds(threshold, memories, kinds, keys) ==> x.absorbed in memories
  {
    hide MergesOf, GroupOf;
    if kinds != [] {
      var n := |kinds| - 1;
      var before := MergesByKinds(threshold, memories, kinds[..n], keys);
      var group := GroupOf(memories, kinds[n]);
      TakenAreOfTheBatch(threshold, memories, kinds[..n], keys);
      MergesAreSound(threshold, group, keys - Taken(before), Taken(before));
      forall x | x in MergesOf(threshold, group, keys - Taken(before), Taken(before))
        ensures x.absorbed in memories
      {
        assert WithinGroup(threshold, group, x);
        assert x.absorbed in group;
      }
    }
  }

  // ----- The total of accesses -----

  /** The total of accesses after merging a batch, of whatever age: what the batch has for
      the records that are merged away has come in place of what the store had for them, but
      for what does not fit the keepers' counters. So it is kept exactly when these agree. */
  lemma TotalIsKeptIff(threshold: real, memories: seq<Memory>, d: Records)
    requires UniqueIds(memories)
    ensures var ms := BatchMerges(threshold, memories, d.Keys);
            var r := Consolidated(threshold, memories, d);
            && TotalAccess(r) + StoredAccess(d, ms) + Overflow(d, ms) == TotalAccess(d) + TakenAccess(ms)
            && (TotalAccess(r) == TotalAccess(d) <==> TakenAccess(ms) == StoredAccess(d, ms) + Overflow(d, ms))
            && (TotalAccess(d) + TakenAccess(ms) <= MAX_COUNT ==> Overflow(d, ms) == 0)
  {
    hide BatchMerges, UniqueIds, TotalAccess, StoredAccess, Overflow, TakenAccess;
    BatchIsSound(threshold, memories, d.Keys);
    Accounts(d, BatchMerges(threshold, memories, d.Keys));
    if TotalAccess(d) + TakenAccess(BatchMerges(threshold, memories, d.Keys)) <= MAX_COUNT {
      FewAccessesFit(d, BatchMerges(threshold, memories, d.Keys));
    }
  }

  // ----- The loops -----

  /** What the merges `ms` into `x` have made of the store `d0`, when the group from `from`
      up to `j` has been compared with it. */
  ghost predicate MergedUpTo(
      threshold: real, x: Memory, group: seq<Memory>, from: nat, j: nat, d0: Records, mergedBefore: seq<MemoryId>,
      ms: seq<Merge>, d: Records, mergedIds: seq<MemoryId>)
  {
    && from <= j <= |group| && d == AfterMerges(d0, ms) && d.Keys == d0.Keys - Taken(ms)
    && MergesInto(threshold, x, group[from..], d0.Keys, Elements(mergedBefore)) ==
       ms + MergesInto(threshold, x, group[j..], d.Keys, Elements(mergedIds))
    && Elements(mergedIds) == Elements(mergedBefore) + Taken(ms) && |mergedIds| == |mergedBefore| + |ms|
  }

  lemma NoneMergedYet(
      threshold: real, x: Memory, group: seq<Memory>, from: nat, d0: Records, mergedBefore: seq<MemoryId>)
    requires from <= |group|
    ensures MergedUpTo(threshold, x, group, from, from, d0, mergedBefore, [], d0, mergedBefore)
  {
    hide AfterMerges, MergesInto, Taken, Elements;
    NoMerge(d0, {});
  }

  lemma OneMerged(
      threshold: real, x: Memory, group: seq<Memory>, from: nat, j: nat, d0: Records, mergedBefore: seq<MemoryId>,
      ms: seq<Merge>, d: Records, mergedIds: seq<MemoryId>)
    requires MergedUpTo(threshold, x, group, from, j, d0, mergedBefore, ms, d, mergedIds) && j < |group|
    requires group[j].id !in mergedIds && Mergeable(threshold, x, group[j]) && x.id in d
    ensures var m := Merge(x.id, group[j]);
            MergedUpTo(threshold, x, group, from, j + 1, d0, mergedBefore, ms + [m], AfterMerge(d, m),
                       mergedIds + [group[j].id])
  {
    hide AfterMerges, MergesInto, AfterMerge, Taken, Mergeable, Elements;
    var m := Merge(x.id, group[j]);
    MergesFrom(threshold, x, group, j, d.Keys, Elements(mergedIds));
    OneMoreId(mergedIds, group[j].id);
    OneMoreMerge(d0, {}, ms, m);
    KeysAfterOne(d, m);
    var keys, merged := d.Keys - {m.absorbed.id}, Elements(mergedIds) + {group[j].id};
    OneFirst(ms, m, MergesInto(threshold, x, group[j + 1..], keys, merged));
  }

  lemma NotMerged(
      threshold: real, x: Memory, group: seq<Memory>, from: nat, j: nat, d0: Records, mergedBefore: seq<MemoryId>,
      ms: seq<Merge>, d: Records, mergedIds: seq<MemoryId>)
    requires MergedUpTo(threshold, x, group, from, j, d0, mergedBefore, ms, d, mergedIds) && j < |group|
    ensures group[j].id in mergedIds || !Mergeable(threshold, x, group[j]) || x.id !in d ==>
              MergedUpTo(threshold, x, group, from, j + 1, d0, mergedBefore, ms, d, mergedIds)
  {
    hide AfterMerges, MergesInto, Taken, Mergeable, Elements;
    MergesFrom(threshold, x, group, j, d.Keys, Elements(mergedIds));
    OneMoreId(mergedIds, group[j].id);
  }

  lemma AllMerged(
      threshold: real, x: Memory, group: seq<Memory>, from: nat, d0: Records, mergedBefore: seq<MemoryId>,
      ms: seq<Merge>, d: Records, mergedIds: seq<MemoryId>)
    requires MergedUpTo(threshold, x, group, from, |group|, d0, mergedBefore, ms, d, mergedIds)
    ensures ms == MergesInto(threshold, x, group[from..], d0.Keys, Elements(mergedBefore))
    ensures d == AfterMerges(d0, ms) && d.Keys == d0.Keys - Taken(ms)
    ensures Elements(mergedIds) == Elements(mergedBefore) + Taken(ms) && |mergedIds| == |mergedBefore| + |ms|
  {
    hide AfterMerges, Taken, Elements;
    NothingLater(threshold, x, group, d.Keys, Elements(mergedIds));
  }

  class Consolidator {
    const store: MemoryStore
    const threshold: real

    constructor (store: MemoryStore, threshold: real)
      ensures this.store == store && this.threshold == threshold
    {
      this.store, this.threshold := store, threshold;
    }

    /** Merges `m` into the stored record `id`, if there is one, and deletes `m`. */
    method MergeInto(id: MemoryId, m: Memory) returns (merged: bool)
      requires store.Valid()
      modifies store
      ensures store.Valid() && merged == (id in old(store.data))
      ensures store.data == AfterMerge(old(store.data), Merge(id, m))
    {
      var found := store.Retrieve(id);
      if found.None? {
        return false;
      }
      var _ := store.Update(Absorb(found.value, m));
      store.Delete(m.id);
      merged := true;
    }

    /** Compares record `i` with the later ones and merges those that are mergeable. */
    method MergeLater(group: seq<Memory>, i: nat, mergedBefore: seq<MemoryId>)
        returns (mergedIds: seq<MemoryId>, ghost ms: seq<Merge>)
      requires store.Valid() && i < |group|
      modifies store
      ensures store.Valid()
      ensures ms == old(MergesInto(threshold, group[i], group[i + 1..], store.data.Keys, Elements(mergedBefore)))
      ensures store.data == AfterMerges(old(store.data), ms) && store.data.Keys == old(store.data.Keys) - Taken(ms)
      ensures Elements(mergedIds) == Elements(mergedBefore) + Taken(ms) && |mergedIds| == |mergedBefore| + |ms|
    {
      hide AfterMerges, MergesInto, AfterMerge, Taken, Mergeable, Elements, MergedUpTo;
      mergedIds, ms := mergedBefore, [];
      ghost var x, d0 := group[i], store.data;
      NoneMergedYet(threshold, x, group, i + 1, d0, mergedBefore);
      for j := i + 1 to |group|
        invariant store.Valid()
        invariant MergedUpTo(threshold, x, group, i + 1, j, d0, mergedBefore, ms, store.data, mergedIds)
      {
        NotMerged(threshold, x, group, i + 1, j, d0, mergedBefore, ms, store.data, mergedIds);
        if group[j].id !in mergedIds && Mergeable(threshold, group[i], group[j]) {
          ghost var before := store.data;
          var merged := MergeInto(group[i].id, group[j]);
          if merged {
            OneMerged(threshold, x, group, i + 1, j, d0, mergedBefore, ms, before, mergedIds);
            mergedIds, ms := mergedIds + [group[j].id], ms + [Merge(group[i].id, group[j])];
          } else {
            NothingMerged(before, Merge(group[i].id, group[j]));
          }
        }
      }
      AllMerged(threshold, x, group, i + 1, d0, mergedBefore, ms, store.data, mergedIds);
    }

    /** Merges within one group, sorted by age: greedily, each record that is left absorbs
        all later ones that are mergeable into it. */
    method MergeGroup(group: seq<Memory>, mergedBefore: seq<MemoryId>)
        returns (mergedIds: seq<MemoryId>, ghost ms: seq<Merge>)
      requires store.Valid()
      modifies store
      ensures store.Valid()
      ensures ms == old(MergesOf(threshold, group, store.data.Keys, Elements(mergedBefore)))
      ensures store.data == AfterMerges(old(store.data), ms) && store.data.Keys == old(store.data.Keys) - Taken(ms)
      ensures Elements(mergedIds) == Elements(mergedBefore) + Taken(ms) && |mergedIds| == |mergedBefore| + |ms|
    {
      hide AfterMerges, MergesInto, MergesOf, Taken;
      mergedIds, ms := mergedBefore, [];
      NoMerge(store.data, {});
      ghost var all := MergesOf(threshold, group, store.data.Keys, Elements(mergedBefore));
      assert group[0..] == group;
      for i := 0 to |group|
        invariant store.Valid() && store.data == AfterMerges(old(store.data), ms)
        invariant all == ms + MergesOf(threshold, group[i..], store.data.Keys, Elements(mergedIds))
        invariant store.data.Keys == old(store.data.Keys) - Taken(ms)
        invariant Elements(mergedIds) == Elements(mergedBefore) + Taken(ms) && |mergedIds| == |mergedBefore| + |ms|
      {
        PassFrom(threshold, group, i, store.data.Keys, Elements(mergedIds));
        if group[i].id !in mergedIds {
          ghost var more;
          mergedIds, more := MergeLater(group, i, mergedIds);
          MergesInTurn(old(store.data), {}, ms, more);
          ms := ms + more;
        }
      }
      NothingLeft(threshold, group, store.data.Keys, Elements(mergedIds));
    }

    /** Merges similar memories of a batch, each kind by itself, the kinds in an arbitrary
        order; records merged away are remembered across kinds. What becomes of the store is
        determined by the batch and the order of kinds, and the order does not matter unless
        a record is listed with two kinds. If no record is listed twice, no two of a kind that
        are left are mergeable, and every one that has gone was mergeable into an older one
        that is left. If the store has the records as they are in the batch, the accesses in total
        (short of saturation), the tags and the greatest importance are conserved. */
    method MergeSimilarBatch(memories: seq<Memory>)
        returns (count: nat, ghost kinds: seq<string>, ghost ms: seq<Merge>)
      requires store.Valid()
      modifies store
      ensures store.Valid() && OnlyTouches(memories, old(store.data), store.data)
      ensures Distinct(kinds) && Elements(kinds) == Elements(KindsOf(memories))
      ensures ms == old(MergesByKinds(threshold, memories, kinds, store.data.Keys))
      ensures store.data == AfterMerges(old(store.data), ms) && count == |ms|
      ensures KindsApart(memories) ==> store.data == Consolidated(threshold, memories, old(store.data))
      ensures UniqueIds(memories) ==> BatchDone(threshold, memories, old(store.data.Keys), store.data.Keys)
      ensures Present(old(store.data), memories) ==> count == |old(store.data)| - |store.data|
      ensures Fresh(old(store.data), memories) ==> Conserves(old(store.data), store.data)
      ensures forall x :: x in ms ==> MergesAlike(threshold, memories, x)
    {
      hide MergesAlike;
      hide AfterMerges, MergesOf, Taken, UniqueIds, Conserves, BatchDone, OnlyTouches, BatchMerges, Consolidated;
      hide GroupOf, Present, Fresh, Keepers, KindsApart, MergesByKinds, KindsOf, Distinct, Elements, KindsLeft;
      var mergedIds: seq<MemoryId> := [];
      kinds, ms := [], [];
      NoMerge(store.data, {});
      NoKind(threshold, memories, store.data.Keys);
      ghost var d0 := store.data;
      var left := set m | m in memories :: m.kind;
      while left != {}
        invariant store.Valid() && store.data == AfterMerges(d0, ms)
        invariant ms == MergesByKinds(threshold, memories, kinds, d0.Keys)
        invariant store.data.Keys == d0.Keys - Taken(ms)
        invariant Elements(mergedIds) == Taken(ms) && |mergedIds| == |ms|
        invariant KindsLeft(memories, kinds, left)
        decreases left
      {
        var kind :| kind in left;
        var group := SortedGroup(memories, kind);
        ghost var more;
        mergedIds, more := MergeGroup(group, mergedIds);
        MergesInTurn(d0, {}, ms, more);
        KindAdded(threshold, memories, kinds, kind, d0.Keys);
        OneKindLess(memories, kinds, left, kind);
        kinds, ms := kinds + [kind], ms + more;
        left := left - {kind};
      }
      count := |mergedIds|;
      NoKindLeft(memories, kinds);
      BatchIsMerged(threshold, memories, kinds, d0);
      OnlyAlikeAreMerged(threshold, memories, kinds, d0.Keys);
    }
  }

  lemma MergesFrom(
      threshold: real, keeper: Memory, group: seq<Memory>, j: nat, keys: set<MemoryId>, merged: set<MemoryId>)
    requires j < |group|
    ensures var m := group[j];
            MergesInto(threshold, keeper, group[j..], keys, merged) ==
            if m.id !in merged && Mergeable(threshold, keeper, m) && keeper.id in keys then
              [Merge(keeper.id, m)] + MergesInto(threshold, keeper, group[j + 1..], keys - {m.id}, merged + {m.id})
            else
              MergesInto(threshold, keeper, group[j + 1..], keys, merged)
  {
    assert group[j..][0] == group[j] && group[j..][1..] == group[j + 1..];
  }

  lemma NothingLater(
      threshold: real, keeper: Memory, group: seq<Memory>, keys: set<MemoryId>, merged: set<MemoryId>)
    ensures MergesInto(threshold, keeper, group[|group|..], keys, merged) == []
  {
  }

  lemma PassFrom(threshold: real, group: seq<Memory>, i: nat, keys: set<MemoryId>, merged: set<MemoryId>)
    requires i < |group|
    ensures var first := if group[i].id in merged then []
                         else MergesInto(threshold, group[i], group[i + 1..], keys, merged);
            MergesOf(threshold, group[i..], keys, merged) ==
            first + MergesOf(threshold, group[i + 1..], keys - Taken(first), merged + Taken(first))
    ensures Taken([]) == {} && keys - {} == keys && merged + {} == merged
  {
    assert group[i..][0] == group[i] && group[i..][1..] == group[i + 1..];
  }

  lemma NothingLeft(threshold: real, group: seq<Memory>, keys: set<MemoryId>, merged: set<MemoryId>)
    ensures MergesOf(threshold, group[|group|..], keys, merged) == []
  {
  }

  lemma KeysAfterOne(d: Records, x: Merge)
    requires x.keeper in d
    ensures AfterMerge(d, x).Keys == d.Keys - {x.absorbed.id}
  {
  }

  lemma NothingMerged(d: Records, x: Merge)
    requires x.keeper !in d
    ensures AfterMerge(d, x) == d
  {
  }

  lemma OneFirst(ms: seq<Merge>, x: Merge, rest: seq<Merge>)
    ensures ms + ([x] + rest) == ms + [x] + rest
  {
  }

  lemma OneMoreId(ids: seq<MemoryId>, id: MemoryId)
    ensures Elements(ids + [id]) == Elements(ids) + {id}
    ensures forall x :: x in ids <==> x in Elements(ids)
  {
  }

  lemma KindAdded(threshold: real, memories: seq<Memory>, kinds: seq<string>, kind: string, keys: set<MemoryId>)
    ensures var before := MergesByKinds(threshold, memories, kinds, keys);
            MergesByKinds(threshold, memories, kinds + [kind], keys) ==
            before + MergesOf(threshold, GroupOf(memories, kind), keys - Taken(before), Taken(before))
  {
    assert (kinds + [kind])[..|kinds|] == kinds;
  }

  /** `kinds` have been taken, once each, and `left` are the others of the batch. */
  ghost predicate KindsLeft(memories: seq<Memory>, kinds: seq<string>, left: set<string>) {
    Distinct(kinds) && Elements(kinds) + left == Elements(KindsOf(memories)) && Elements(kinds) !! left
  }

  lemma NoKind(threshold: real, memories: seq<Memory>, keys: set<MemoryId>)
    ensures MergesByKinds(threshold, memories, [], keys) == [] && Elements<MemoryId>([]) == {}
    ensures KindsLeft(memories, [], set m | m in memories :: m.kind)
  {
  }

  lemma OneKindLess(memories: seq<Memory>, kinds: seq<string>, left: set<string>, kind: string)
    requires KindsLeft(memories, kinds, left) && kind in left
    ensures KindsLeft(memories, kinds + [kind], left - {kind})
  {
    assert Elements(kinds + [kind]) == Elements(kinds) + {kind};
    assert kind !in Elements(kinds);
  }

  lemma NoKindLeft(memories: seq<Memory>, kinds: seq<string>)
    requires KindsLeft(memories, kinds, {})
    ensures Distinct(kinds) && Elements(kinds) == Elements(KindsOf(memories))
  {
  }

  /** What the loop over kinds has done, in terms of the batch. */
  lemma BatchIsMerged(threshold: real, memories: seq<Memory>, kinds: seq<string>, d: Records)
    requires Distinct(kinds) && Elements(kinds) == Elements(KindsOf(memories))
    ensures var ms := MergesByKinds(threshold, memories, kinds, d.Keys);
            var r := AfterMerges(d, ms);
            && OnlyTouches(memories, d, r)
            && (KindsApart(memories) ==> r == Consolidated(threshold, memories, d))
            && (UniqueIds(memories) ==> KindsApart(memories) && BatchDone(threshold, memories, d.Keys, r.Keys))
            && (Present(d, memories) ==> UniqueIds(memories) && |ms| == |d| - |r|)
            && (Fresh(d, memories) ==> Conserves(d, r))
  {
    hide MergesByKinds, UniqueIds, KindsApart, BatchDone, OnlyTouches, Conserves, AfterMerges, KindsOf, Taken;
    MergesTouchTheBatch(threshold, memories, kinds, d);
    UniqueAreApart(memories);
    if KindsApart(memories) {
      AnyOrderConsolidates(threshold, memories, kinds, d);
    }
    if UniqueIds(memories) {
      MergesTouchTheBatch(threshold, memories, KindsOf(memories), d);
      BatchIsDone(threshold, memories, d.Keys);
    }
    if Present(d, memories) {
      RecordsGone(threshold, memories, d);
    }
    if Fresh(d, memories) {
      FreshIsConserved(threshold, memories, d);
    }
  }

  /** The records of one kind, sorted by age. */
  method SortedGroup(memories: seq<Memory>, kind: string) returns (group: seq<Memory>)
    ensures group == GroupOf(memories, kind)
  {
    group := [];
    for i := 0 to |memories|
      invariant group == GroupOf(memories[..i], kind)
    {
      assert memories[..i + 1][..i] == memories[..i];
      if memories[i].kind == kind {
        group := InsertByAge(memories[i], group);
      }
    }
    assert memories[..|memories|] == memories;
  }
}
