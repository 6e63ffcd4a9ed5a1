/** What merging does to a batch that lists records more than once: it merges such a record
    into itself, and then deletes it. */
module Duplicates {
  import opened Memories
  import opened Merges
  import opened Consolidation

  /** A record and how many further times it is listed right after. */
  datatype Run = Run(m: Memory, more: nat)

  function Copies(m: Memory, n: nat): seq<Memory> {
    if n == 0 then [] else [m] + Copies(m, n - 1)
  }

  /** The list of which these are the runs. */
  function Listed(runs: seq<Run>): seq<Memory> {
    if runs == [] then [] else [runs[0].m] + Copies(runs[0].m, runs[0].more) + Listed(runs[1..])
  }

  /** Each record once. */
  function Single(runs: seq<Run>): (single: seq<Memory>)
    ensures |single| == |runs| && forall i :: 0 <= i < |runs| ==> single[i] == runs[i].m
  {
    seq(|runs|, i requires 0 <= i < |runs| => runs[i].m)
  }

  /** The identifiers that are listed more than once. */
  function Repeated(runs: seq<Run>): set<MemoryId> {
    set r | r in runs && r.more > 0 :: r.m.id
  }

  function IsSelf(x: Merge): bool {
    x.keeper == x.absorbed.id
  }

  /** The merges of records into others. */
  function Others(ms: seq<Merge>): seq<Merge> {
    if ms == [] then []
    else Others(ms[..|ms| - 1]) + if IsSelf(ms[|ms| - 1]) then [] else [ms[|ms| - 1]]
  }

  /** The records merged into themselves, which are lost. */
  function Lost(ms: seq<Merge>): set<MemoryId> {
    set x | x in ms && IsSelf(x) :: x.keeper
  }

  lemma {:induction false} OthersJoin(a: seq<Merge>, b: seq<Merge>)
    ensures Others(a + b) == Others(a) + Others(b) && Lost(a + b) == Lost(a) + Lost(b)
    decreases |b|
  {
    if b == [] {
      assert a + b == a;
    } else {
      var n := |b| - 1;
      assert (a + b)[..|a + b| - 1] == a + b[..n];
      OthersJoin(a, b[..n]);
      assert b == b[..n] + [b[n]];
    }
  }

  lemma {:induction false} OnlyOthers(ms: seq<Merge>)
    requires forall x :: x in ms ==> !IsSelf(x)
    ensures Others(ms) == ms && Lost(ms) == {}
  {
    if ms != [] {
      var n := |ms| - 1;
      assert ms == ms[..n] + [ms[n]];
      OnlyOthers(ms[..n]);
    }
  }

  lemma OneSelf(x: Merge)
    requires IsSelf(x)
    ensures Others([x]) == [] && Lost([x]) == {x.keeper}
  {
    assert [x][..0] == [];
  }

  // ----- Copies in a pass -----

  lemma MergeableIntoItself(threshold: real, m: Memory)
    ensures Mergeable(threshold, m, m) <==> threshold <= 1.0
  {
  }

  lemma {:induction false} NothingInto(
      threshold: real, keeper: Memory, later: seq<Memory>, keys: set<MemoryId>, merged: set<MemoryId>)
    requires keeper.id !in keys
    ensures MergesInto(threshold, keeper, later, keys, merged) == []
    decreases |later|
  {
    if later != [] {
      NothingInto(threshold, keeper, later[1..], keys, merged);
    }
  }

  /** Copies of a record that was merged, or is gone, have no part in a pass. */
  lemma {:induction false} IdleCopies(
      threshold: real, m: Memory, n: nat, rest: seq<Memory>, keys: set<MemoryId>, merged: set<MemoryId>)
    requires m.id in merged || m.id !in keys
    ensures MergesOf(threshold, Copies(m, n) + rest, keys, merged) == MergesOf(threshold, rest, keys, merged)
  {
    hide Mergeable, MergesInto;
    var group := Copies(m, n) + rest;
    if n == 0 {
      assert group == rest;
    } else {
      assert group[0] == m && group[1..] == Copies(m, n - 1) + rest;
      if m.id !in merged {
        NothingInto(threshold, m, group[1..], keys, merged);
      }
      assert MergesIntoFirst(threshold, group, keys, merged) == [];
      assert keys - Taken([]) == keys && merged + Taken([]) == merged;
      IdleCopies(threshold, m, n - 1, rest, keys, merged);
    }
  }

  /** Copies of a later record that was merged are passed over. */
  lemma {:induction false} CopiesPassed(
      threshold: real, keeper: Memory, m: Memory, n: nat, rest: seq<Memory>, keys: set<MemoryId>,
      merged: set<MemoryId>)
    requires m.id in merged || !Mergeable(threshold, keeper, m)
    ensures MergesInto(threshold, keeper, Copies(m, n) + rest, keys, merged) ==
            MergesInto(threshold, keeper, rest, keys, merged)
  {
    hide Mergeable;
    var later := Copies(m, n) + rest;
    if n == 0 {
      assert later == rest;
    } else {
      assert later[0] == m && later[1..] == Copies(m, n - 1) + rest;
      CopiesPassed(threshold, keeper, m, n - 1, rest, keys, merged);
    }
  }

  /** A keeper takes repeated later records once, as if they were listed once. */
  lemma {:induction false} IntoListed(
      threshold: real, keeper: Memory, runs: seq<Run>, keys: set<MemoryId>, merged: set<MemoryId>,
      otherKeys: set<MemoryId>)
    requires keeper.id in keys <==> keeper.id in otherKeys
    requires keeper.id !in Ids(Single(runs))
    ensures MergesInto(threshold, keeper, Listed(runs), keys, merged) ==
            MergesInto(threshold, keeper, Single(runs), otherKeys, merged)
    decreases |runs|
  {
    hide Mergeable;
    if runs == [] {
    } else if keeper.id !in keys {
      NothingInto(threshold, keeper, Listed(runs), keys, merged);
      NothingInto(threshold, keeper, Single(runs), otherKeys, merged);
    } else {
      var m, n, rest := runs[0].m, runs[0].more, runs[1..];
      SingleHead(runs);
      var after := Copies(m, n) + Listed(rest);
      assert Listed(runs) == [m] + after;
      assert Listed(runs)[0] == m && Listed(runs)[1..] == after;
      if m.id !in merged && Mergeable(threshold, keeper, m) {
        CopiesPassed(threshold, keeper, m, n, Listed(rest), keys - {m.id}, merged + {m.id});
        IntoListed(threshold, keeper, rest, keys - {m.id}, merged + {m.id}, otherKeys - {m.id});
      } else {
        CopiesPassed(threshold, keeper, m, n, Listed(rest), keys, merged);
        IntoListed(threshold, keeper, rest, keys, merged, otherKeys);
      }
    }
  }

  lemma SingleHead(runs: seq<Run>)
    requires runs != []
    ensures Single(runs)[0] == runs[0].m && Single(runs)[1..] == Single(runs[1..])
    ensures Single(runs) == [runs[0].m] + Single(runs[1..])
    ensures Ids(Single(runs)) == {runs[0].m.id} + Ids(Single(runs[1..]))
    ensures Repeated(runs) == Repeated(runs[1..]) + if runs[0].more > 0 then {runs[0].m.id} else {}
    ensures Repeated(runs[1..]) <= Ids(Single(runs[1..]))
  {
    hide Single, Ids, Repeated;
    SingleInFront(runs);
    IdsInFront(runs[0].m, Single(runs[1..]));
    RepeatedInFront(runs);
    RepeatedAreSingle(runs[1..]);
  }

  lemma SingleInFront(runs: seq<Run>)
    requires runs != []
    ensures Single(runs) == [runs[0].m] + Single(runs[1..])
    ensures Single(runs)[0] == runs[0].m && Single(runs)[1..] == Single(runs[1..])
  {
    assert Single(runs) == [runs[0].m] + Single(runs[1..]);
  }

  lemma IdsInFront(m: Memory, rest: seq<Memory>)
    ensures Ids([m] + rest) == {m.id} + Ids(rest)
  {
  }

  lemma RepeatedInFront(runs: seq<Run>)
    requires runs != []
    ensures Repeated(runs) == Repeated(runs[1..]) + if runs[0].more > 0 then {runs[0].m.id} else {}
  {
    assert runs == [runs[0]] + runs[1..];
  }

  lemma RepeatedAreSingle(runs: seq<Run>)
    ensures Repeated(runs) <= Ids(Single(runs))
  {
    hide Single;
    forall r | r in runs ensures r.m.id in Ids(Single(runs)) {
      var i :| 0 <= i < |runs| && runs[i] == r;
      assert Single(runs)[i] in Single(runs);
    }
  }

  // ----- What becomes of repeated records -----

  /** Repeated records act as if the store did not have them: they may be taken by an older
      record, but take none. Those that it does have and that no older record takes are lost. */
  ghost predicate ActsAsAbsent(
      threshold: real, runs: seq<Run>, keys: set<MemoryId>, merged: set<MemoryId>)
  {
    var ms := MergesOf(threshold, Listed(runs), keys, merged);
    var others := MergesOf(threshold, Single(runs), keys - Repeated(runs), merged);
    Others(ms) == others && Lost(ms) == Repeated(runs) * keys - merged - Taken(others)
  }

  lemma ListedHead(runs: seq<Run>)
    requires runs != []
    ensures Listed(runs) == Copies(runs[0].m, runs[0].more + 1) + Listed(runs[1..])
    ensures Listed(runs)[0] == runs[0].m
    ensures Listed(runs)[1..] == Copies(runs[0].m, runs[0].more) + Listed(runs[1..])
  {
    hide Copies, Listed;
    var m, n, rest := runs[0].m, runs[0].more, runs[1..];
    assert runs == [Run(m, n)] + rest;
    ListedFrom(m, n, rest);
    OneMoreCopy(m, n);
    HeadOfThree(m, Copies(m, n), Listed(rest));
  }

  lemma HeadOfThree(m: Memory, a: seq<Memory>, b: seq<Memory>)
    ensures ([m] + a + b)[0] == m && ([m] + a + b)[1..] == a + b
  {
  }

  /** The first record has no part in the pass over the others. */
  lemma HeadIsForeign(threshold: real, runs: seq<Run>, keys: set<MemoryId>, merged: set<MemoryId>)
    requires runs != [] && UniqueIds(Single(runs))
    ensures var h, single := runs[0].m.id, Single(runs[1..]);
            && MergesOf(threshold, single, keys - Repeated(runs[1..]), merged) ==
               MergesOf(threshold, single, keys - Repeated(runs), merged)
            && MergesOf(threshold, single, keys - {h} - Repeated(runs[1..]), merged + {h}) ==
               MergesOf(threshold, single, keys - Repeated(runs), merged)
            && h !in Taken(MergesOf(threshold, single, keys - Repeated(runs), merged))
  {
    hide MergesOf;
    var h, single := runs[0].m.id, Single(runs[1..]);
    SingleHead(runs);
    TailIsUnique(Single(runs));
    OthersDoNotMatter(threshold, single, keys - Repeated(runs[1..]), merged, keys - Repeated(runs), merged);
    OthersDoNotMatter(threshold, single, keys - {h} - Repeated(runs[1..]), merged + {h}, keys - Repeated(runs), merged);
    NamesAreOfTheGroup(threshold, single, keys - Repeated(runs), merged);
  }

  /** A first record that takes nothing leaves the pass to the others. */
  lemma IdleFirst(threshold: real, runs: seq<Run>, keys: set<MemoryId>, merged: set<MemoryId>)
    requires runs != [] && (runs[0].m.id in merged || runs[0].m.id !in keys)
    ensures MergesOf(threshold, Single(runs), keys, merged) == MergesOf(threshold, Single(runs[1..]), keys, merged)
  {
    hide MergesInto;
    SingleHead(runs);
    if runs[0].m.id !in merged {
      NothingInto(threshold, runs[0].m, Single(runs)[1..], keys, merged);
    }
    assert MergesIntoFirst(threshold, Single(runs), keys, merged) == [];
    assert keys - Taken([]) == keys && merged + Taken([]) == merged;
  }

  lemma IdleHead(threshold: real, runs: seq<Run>, keys: set<MemoryId>, merged: set<MemoryId>)
    requires runs != [] && UniqueIds(Single(runs)) && (runs[0].m.id in merged || runs[0].m.id !in keys)
    requires ActsAsAbsent(threshold, runs[1..], keys, merged)
    ensures ActsAsAbsent(threshold, runs, keys, merged)
  {
    hide MergesOf, Listed, Taken, Others, Lost;
    ListedHead(runs);
    SingleHead(runs);
    IdleCopies(threshold, runs[0].m, runs[0].more + 1, Listed(runs[1..]), keys, merged);
    HeadIsForeign(threshold, runs, keys, merged);
    IdleFirst(threshold, runs, keys - Repeated(runs), merged);
  }

  lemma SelfIsFirst(threshold: real, runs: seq<Run>, keys: set<MemoryId>, merged: set<MemoryId>)
    requires threshold <= 1.0 && runs != [] && runs[0].more > 0
    requires runs[0].m.id !in merged && runs[0].m.id in keys
    ensures var m := runs[0].m;
            MergesOf(threshold, Listed(runs), keys, merged) ==
            [Merge(m.id, m)] + MergesOf(threshold, Listed(runs[1..]), keys - {m.id}, merged + {m.id})
  {
    var m, group := runs[0].m, Listed(runs);
    ListedHead(runs);
    MergeableIntoItself(threshold, m);
    var later := group[1..];
    assert later[0] == m;
    NothingInto(threshold, m, later[1..], keys - {m.id}, merged + {m.id});
    assert MergesIntoFirst(threshold, group, keys, merged) == [Merge(m.id, m)];
    OneFollows(keys, Merge(m.id, m));
    IdleCopies(threshold, m, runs[0].more, Listed(runs[1..]), keys - {m.id}, merged + {m.id});
  }

  lemma RepeatedHead(threshold: real, runs: seq<Run>, keys: set<MemoryId>, merged: set<MemoryId>)
    requires threshold <= 1.0 && runs != [] && UniqueIds(Single(runs)) && runs[0].more > 0
    requires runs[0].m.id !in merged && runs[0].m.id in keys
    requires ActsAsAbsent(threshold, runs[1..], keys - {runs[0].m.id}, merged + {runs[0].m.id})
    ensures ActsAsAbsent(threshold, runs, keys, merged)
  {
    hide MergesOf, Listed, Taken, Others, Lost;
    var m := runs[0].m;
    SingleHead(runs);
    SelfIsFirst(threshold, runs, keys, merged);
    OneSelf(Merge(m.id, m));
    OthersJoin([Merge(m.id, m)], MergesOf(threshold, Listed(runs[1..]), keys - {m.id}, merged + {m.id}));
    HeadIsForeign(threshold, runs, keys, merged);
    IdleFirst(threshold, runs, keys - Repeated(runs), merged);
  }

  /** A record that is listed once takes what it would take if all were. */
  lemma PlainFirst(threshold: real, runs: seq<Run>, keys: set<MemoryId>, merged: set<MemoryId>)
    requires runs != [] && UniqueIds(Single(runs)) && runs[0].more == 0
    requires runs[0].m.id !in merged && runs[0].m.id in keys
    ensures var first := MergesIntoFirst(threshold, Single(runs), keys - Repeated(runs), merged);
            && MergesOf(threshold, Listed(runs), keys, merged) ==
               first + MergesOf(threshold, Listed(runs[1..]), keys - Taken(first), merged + Taken(first))
            && MergesOf(threshold, Single(runs), keys - Repeated(runs), merged) ==
               first + MergesOf(threshold, Single(runs[1..]), keys - Repeated(runs) - Taken(first),
                                merged + Taken(first))
            && Others(first) == first && Lost(first) == {}
  {
    hide MergesInto, Taken;
    var m := runs[0].m;
    ListedHead(runs);
    SingleHead(runs);
    TailIsUnique(Single(runs));
    assert Listed(runs)[1..] == Listed(runs[1..]);
    IntoListed(threshold, m, runs[1..], keys, merged, keys - Repeated(runs));
    var first := MergesIntoFirst(threshold, Single(runs), keys - Repeated(runs), merged);
    assert first == MergesIntoFirst(threshold, Listed(runs), keys, merged);
    FirstIsSound(threshold, Single(runs), keys - Repeated(runs), merged);
    OnlyOthers(first);
  }

  lemma PlainHead(threshold: real, runs: seq<Run>, keys: set<MemoryId>, merged: set<MemoryId>)
    requires runs != [] && UniqueIds(Single(runs)) && runs[0].more == 0
    requires runs[0].m.id !in merged && runs[0].m.id in keys
    requires var taken := Taken(MergesIntoFirst(threshold, Single(runs), keys - Repeated(runs), merged));
             ActsAsAbsent(threshold, runs[1..], keys - taken, merged + taken)
    ensures ActsAsAbsent(threshold, runs, keys, merged)
  {
    hide MergesOf, MergesIntoFirst, Listed, Taken, Others, Lost, Keepers, Repeated, Single, UniqueIds;
    var first := MergesIntoFirst(threshold, Single(runs), keys - Repeated(runs), merged);
    var taken, tail := Taken(first), runs[1..];
    SingleHead(runs);
    PlainFirst(threshold, runs, keys, merged);
    var others := MergesOf(threshold, Single(tail), keys - Repeated(runs) - taken, merged + taken);
    OthersJoin(first, MergesOf(threshold, Listed(tail), keys - taken, merged + taken));
    assert keys - Repeated(runs) - taken == keys - taken - Repeated(tail);
    MergesInTurn(map[], keys, first, others);
    LostWithout(Repeated(runs), keys, merged, taken, Taken(others));
  }

  lemma LostWithout(
      repeated: set<MemoryId>, keys: set<MemoryId>, merged: set<MemoryId>, taken: set<MemoryId>, more: set<MemoryId>)
    ensures repeated * (keys - taken) - (merged + taken) - more == repeated * keys - merged - (taken + more)
  {
  }

  lemma {:induction false} RepeatedActAsAbsent(
      threshold: real, runs: seq<Run>, keys: set<MemoryId>, merged: set<MemoryId>)
    requires threshold <= 1.0 && UniqueIds(Single(runs))
    ensures ActsAsAbsent(threshold, runs, keys, merged)
    decreases |runs|
  {
    hide ActsAsAbsent, MergesOf, MergesIntoFirst;
    if runs == [] {
      NothingListed(threshold, keys, merged);
    } else {
      var id := runs[0].m.id;
      SingleHead(runs);
      TailIsUnique(Single(runs));
      if id in merged || id !in keys {
        RepeatedActAsAbsent(threshold, runs[1..], keys, merged);
        IdleHead(threshold, runs, keys, merged);
      } else if runs[0].more > 0 {
        RepeatedActAsAbsent(threshold, runs[1..], keys - {id}, merged + {id});
        RepeatedHead(threshold, runs, keys, merged);
      } else {
        var taken := Taken(MergesIntoFirst(threshold, Single(runs), keys - Repeated(runs), merged));
        RepeatedActAsAbsent(threshold, runs[1..], keys - taken, merged + taken);
        PlainHead(threshold, runs, keys, merged);
      }
    }
  }

  lemma NothingListed(threshold: real, keys: set<MemoryId>, merged: set<MemoryId>)
    ensures ActsAsAbsent(threshold, [], keys, merged)
  {
  }

  lemma {:induction false} NoneIsThatSimilar(
      threshold: real, keeper: Memory, later: seq<Memory>, keys: set<MemoryId>, merged: set<MemoryId>)
    requires threshold > 1.0
    ensures MergesInto(threshold, keeper, later, keys, merged) == []
    decreases |later|
  {
    if later != [] {
      NoneIsThatSimilar(threshold, keeper, later[1..], keys, merged);
    }
  }

  /** Above a similarity of one nothing is merged, and nothing lost. */
  lemma {:induction false} NothingIsThatSimilar(
      threshold: real, group: seq<Memory>, keys: set<MemoryId>, merged: set<MemoryId>)
    requires threshold > 1.0
    ensures MergesOf(threshold, group, keys, merged) == []
    decreases |group|
  {
    if group != [] {
      NoneIsThatSimilar(threshold, group[0], group[1..], keys, merged);
      NothingIsThatSimilar(threshold, group[1..], keys - Taken([]), merged + Taken([]));
    }
  }

  // ----- What becomes of the store -----

  lemma {:induction false} DroppedBefore(d: Records, ms: seq<Merge>, id: MemoryId)
    requires id !in Names(ms)
    ensures AfterMerges(d - {id}, ms) == AfterMerges(d, ms) - {id}
  {
    if ms != [] {
      var n := |ms| - 1;
      assert ms == ms[..n] + [ms[n]];
      OneMoreMerge(d, {}, ms[..n], ms[n]);
      DroppedBefore(d, ms[..n], id);
      DroppedOnce(AfterMerges(d, ms[..n]), ms[n], id);
    }
  }

  lemma DroppedOnce(d: Records, x: Merge, id: MemoryId)
    requires id != x.keeper && id != x.absorbed.id
    ensures AfterMerge(d - {id}, x) == AfterMerge(d, x) - {id}
  {
    hide Absorb;
  }

  lemma {:induction false} NamesOfOthers(ms: seq<Merge>)
    ensures forall x :: x in Others(ms) <==> x in ms && !IsSelf(x)
  {
    if ms != [] {
      var n := |ms| - 1;
      assert ms == ms[..n] + [ms[n]];
      NamesOfOthers(ms[..n]);
    }
  }

  lemma LastOfMerges(d: Records, ms: seq<Merge>)
    requires ms != []
    ensures var n, x := |ms| - 1, ms[|ms| - 1];
            && AfterMerges(d, ms) == AfterMerge(AfterMerges(d, ms[..n]), x)
            && Others(ms) == Others(ms[..n]) + (if IsSelf(x) then [] else [x])
            && Lost(ms) == Lost(ms[..n]) + if IsSelf(x) then {x.keeper} else {}
  {
    hide AfterMerge;
    var n := |ms| - 1;
    assert ms == ms[..n] + [ms[n]];
  }

  lemma FewerNames(a: seq<Merge>, b: seq<Merge>)
    ensures Names(a) <= Names(a + b)
  {
  }

  /** The store is left as if the lost records had been deleted before the other merges. */
  lemma {:induction false} LostAreDeleted(d: Records, ms: seq<Merge>)
    requires Lost(ms) !! Names(Others(ms))
    ensures AfterMerges(d, ms) == AfterMerges(d - Lost(ms), Others(ms))
  {
    hide AfterMerge, AfterMerges, Others, Lost, Names;
    if ms == [] {
      NoneLost(d);
    } else {
      var n, x := |ms| - 1, ms[|ms| - 1];
      LastOfMerges(d, ms);
      FewerNames(Others(ms[..n]), if IsSelf(x) then [] else [x]);
      LostAreDeleted(d, ms[..n]);
      if IsSelf(x) {
        assert d - Lost(ms) == d - Lost(ms[..n]) - {x.keeper};
        assert Others(ms) == Others(ms[..n]);
        DroppedBefore(d - Lost(ms[..n]), Others(ms[..n]), x.keeper);
        SelfDeletes(AfterMerges(d, ms[..n]), x);
      } else {
        assert d - Lost(ms) == d - Lost(ms[..n]);
        OneMoreMerge(d - Lost(ms), {}, Others(ms[..n]), x);
      }
    }
  }

  lemma NoneLost(d: Records)
    ensures AfterMerges(d, []) == AfterMerges(d - Lost([]), Others([]))
  {
    assert d - Lost([]) == d;
  }

  lemma SelfDeletes(d: Records, x: Merge)
    requires IsSelf(x)
    ensures AfterMerge(d, x) == d - {x.keeper}
  {
  }

  // ----- Snapshots that list records more than once -----

  /** Whatever is listed with one identifier is one record. */
  ghost predicate Snapshot(memories: seq<Memory>) {
    forall x, y :: x in memories && y in memories && x.id == y.id ==> x == y
  }

  /** One more record before these runs. */
  function Preceded(h: Memory, runs: seq<Run>): seq<Run> {
    if runs != [] && runs[0].m == h then [Run(h, runs[0].more + 1)] + runs[1..] else [Run(h, 0)] + runs
  }

  lemma PrecededSingle(h: Memory, runs: seq<Run>)
    ensures Single(Preceded(h, runs)) ==
            if runs != [] && runs[0].m == h then Single(runs) else [h] + Single(runs)
  {
  }

  lemma ListedFrom(m: Memory, n: nat, rest: seq<Run>)
    ensures Listed([Run(m, n)] + rest) == [m] + Copies(m, n) + Listed(rest)
  {
    hide Copies;
    var runs := [Run(m, n)] + rest;
    assert runs[0] == Run(m, n) && runs[1..] == rest;
  }

  lemma OneInFront(m: Memory, a: seq<Memory>, b: seq<Memory>)
    ensures [m] + ([m] + a) + b == [m] + ([m] + a + b) && [m] + [] + b == [m] + b
  {
  }

  lemma PrecededLists(h: Memory, runs: seq<Run>)
    ensures var r := Preceded(h, runs);
            && r != [] && r[0].m == h && Listed(r) == [h] + Listed(runs)
            && Single(r) == if runs != [] && runs[0].m == h then Single(runs) else [h] + Single(runs)
  {
    hide Copies, Single, Listed;
    PrecededSingle(h, runs);
    if runs != [] && runs[0].m == h {
      var n, rest := runs[0].more, runs[1..];
      assert runs == [Run(h, n)] + rest;
      ListedFrom(h, n, rest);
      ListedFrom(h, n + 1, rest);
      OneMoreCopy(h, n);
      OneInFront(h, Copies(h, n), Listed(rest));
    } else {
      ListedFrom(h, 0, runs);
      OneMoreCopy(h, 0);
      OneInFront(h, [], Listed(runs));
    }
  }

  lemma OneMoreCopy(m: Memory, n: nat)
    ensures Copies(m, n + 1) == [m] + Copies(m, n) && Copies(m, 0) == []
  {
  }

  /** The runs of equal records of a list. */
  function RunsOf(group: seq<Memory>): (runs: seq<Run>)
    ensures Listed(runs) == group && Ids(Single(runs)) == Ids(group)
    ensures group != [] ==> runs != [] && runs[0].m == group[0]
  {
    if group == [] then []
    else
      var rest := RunsOf(group[1..]);
      PrecededLists(group[0], rest);
      SameIds(group, rest);
      Preceded(group[0], rest)
  }

  lemma SameIds(group: seq<Memory>, rest: seq<Run>)
    requires group != [] && Ids(Single(rest)) == Ids(group[1..])
    ensures Ids(Single(Preceded(group[0], rest))) == Ids(group)
  {
    hide Listed, Preceded;
    PrecededLists(group[0], rest);
    assert group == [group[0]] + group[1..];
    assert Ids(group) == {group[0].id} + Ids(group[1..]);
    if rest != [] && rest[0].m == group[0] {
      assert Single(rest)[0] == group[0] && Single(rest)[0] in Single(rest);
    }
  }

  /** In a snapshot sorted by age, all mentions of a record are next to one another. */
  lemma {:induction false} RunsAreUnique(group: seq<Memory>)
    requires Snapshot(group) && InAgeOrder(group)
    ensures UniqueIds(Single(RunsOf(group)))
  {
    hide Listed, Preceded;
    if group != [] {
      var h, tail := group[0], group[1..];
      assert group == [h] + tail;
      TailInAgeOrder(h, tail);
      RunsAreUnique(tail);
      var rest := RunsOf(tail);
      PrecededLists(h, rest);
      if rest == [] || rest[0].m != h {
        NotMentionedAgain(h, tail);
        FirstIsUnique(h, Single(rest));
      }
    }
  }

  lemma TailInAgeOrder(h: Memory, tail: seq<Memory>)
    requires Snapshot([h] + tail) && InAgeOrder([h] + tail)
    ensures Snapshot(tail) && InAgeOrder(tail)
  {
    var group := [h] + tail;
    assert forall i :: 0 <= i < |tail| ==> tail[i] == group[i + 1];
  }

  lemma NotMentionedAgain(h: Memory, tail: seq<Memory>)
    requires Snapshot([h] + tail) && InAgeOrder([h] + tail) && (tail == [] || tail[0] != h)
    ensures h.id !in Ids(tail)
  {
    var group := [h] + tail;
    forall m | m in tail ensures m.id != h.id {
      var k :| 0 <= k < |tail| && tail[k] == m;
      assert group[0] == h && group[1] == tail[0] && group[k + 1] == m;
      assert group[0] in group && group[1] in group && group[k + 1] in group;
      assert !Older(group[1], group[0]) && (k > 0 ==> !Older(group[k + 1], group[1]));
    }
  }

  lemma FirstIsUnique(h: Memory, rest: seq<Memory>)
    requires UniqueIds(rest) && h.id !in Ids(rest)
    ensures UniqueIds([h] + rest)
  {
    forall j | 0 <= j < |rest| ensures rest[j].id != h.id {
      assert rest[j] in rest;
    }
  }

  /** A snapshot that lists records more than once. Of each kind, such a record is lost,
      merged into itself, exactly when the store has it and no older record takes it; the
      other merges are those of the batch with each record listed once, from a store without
      the repeated ones. The store is left as if the lost records had been deleted first. */
  lemma RepeatedRecordsAreLostIff(threshold: real, memories: seq<Memory>, kind: string, d: Records)
    requires Snapshot(memories) && threshold <= 1.0
    ensures var runs := RunsOf(GroupOf(memories, kind));
            var ms := OwnMerges(threshold, memories, kind, d.Keys);
            var others := MergesOf(threshold, Single(runs), d.Keys - Repeated(runs), {});
            && UniqueIds(Single(runs)) && Listed(runs) == GroupOf(memories, kind)
            && Others(ms) == others
            && (forall id :: id in Lost(ms) <==> id in Repeated(runs) && id in d && id !in Taken(others))
            && AfterMerges(d, ms) == AfterMerges(d - Lost(ms), others)
  {
    hide MergesOf, AfterMerges, GroupOf, Others, Lost, RunsOf, Listed;
    var group := GroupOf(memories, kind);
    var runs := RunsOf(group);
    GroupInAgeOrder(memories, kind);
    RunsAreUnique(group);
    RepeatedActAsAbsent(threshold, runs, d.Keys, {});
    var ms := OwnMerges(threshold, memories, kind, d.Keys);
    KeepersStay(threshold, Single(runs), d.Keys - Repeated(runs), {});
    LostAreDeleted(d, ms);
  }

  /** A batch that lists one record twice: it is gone afterwards. */
  lemma ListedTwiceIsLost(m: Memory, threshold: real)
    requires threshold <= 1.0
    ensures Consolidated(threshold, [m, m], map[m.id := m]) == map[]
  {
    hide MergesOf, AfterMerge, AfterMerges, BatchMerges, GroupOf, KindsOf;
    var batch, d, x := [m, m], map[m.id := m], Merge(m.id, m);
    TwiceIsOneKind(m);
    OneKind(threshold, batch, m.kind, d.Keys);
    OnlyItself(threshold, m);
    assert d.Keys == {m.id};
    OneMerge(d, x);
    SelfDeletes(d, x);
    assert d - {m.id} == map[];
  }

  lemma OneMerge(d: Records, x: Merge)
    ensures AfterMerges(d, [x]) == AfterMerge(d, x)
  {
    assert [x][..0] == [];
  }

  lemma OnlyItself(threshold: real, m: Memory)
    requires threshold <= 1.0
    ensures MergesOf(threshold, [m, m], {m.id}, {}) == [Merge(m.id, m)]
  {
    hide Mergeable, MergesInto;
    var runs := [Run(m, 1)];
    assert Copies(m, 1) == [m] + Copies(m, 0);
    assert Listed(runs) == [m, m] && runs[1..] == [];
    SelfIsFirst(threshold, runs, {m.id}, {});
  }

  lemma TwiceIsOneKind(m: Memory)
    ensures KindsOf([m, m]) == [m.kind] && GroupOf([m, m], m.kind) == [m, m]
  {
    assert [m, m][..1] == [m] && [m][..0] == [];
    assert KindsOf([m]) == [m.kind] && GroupOf([m], m.kind) == [m];
  }

  lemma OneKind(threshold: real, batch: seq<Memory>, kind: string, keys: set<MemoryId>)
    requires KindsOf(batch) == [kind]
    ensures BatchMerges(threshold, batch, keys) == MergesOf(threshold, GroupOf(batch, kind), keys, {})
  {
    hide MergesOf, GroupOf, KindsOf;
    KindAdded(threshold, batch, [], kind, keys);
    assert [] + [kind] == [kind];
    assert keys - Taken([]) == keys && Taken([]) == {};
  }
}
