/** The accesses that merges move: what keepers receive, what does not fit their counters,
    and what becomes of the total, for a batch that may be outdated. */
module Ledgers {
  import opened Memories
  import opened Merges

  function CountOf(d: Records, id: MemoryId): nat {
    if id in d then d[id].accessCount else 0
  }

  /** The accesses of the taken records, as the batch has them. */
  function TakenAccess(ms: seq<Merge>): nat {
    if ms == [] then 0 else TakenAccess(ms[..|ms| - 1]) + ms[|ms| - 1].absorbed.accessCount
  }

  /** The accesses of the same records, as the store has them. */
  function StoredAccess(d: Records, ms: seq<Merge>): nat {
    if ms == [] then 0 else StoredAccess(d, ms[..|ms| - 1]) + CountOf(d, ms[|ms| - 1].absorbed.id)
  }

  /** The accesses that merges bring to one keeper. */
  function Received(ms: seq<Merge>, keeper: MemoryId): nat {
    if ms == [] then 0
    else
      var x := ms[|ms| - 1];
      Received(ms[..|ms| - 1], keeper) + if x.keeper == keeper then x.absorbed.accessCount else 0
  }

  /** What does not fit a counter. */
  function Excess(n: nat): nat {
    if n > MAX_COUNT then n - MAX_COUNT else 0
  }

  function ExcessAt(d: Records, ms: seq<Merge>): MemoryId -> nat {
    id => Excess(CountOf(d, id) + Received(ms, id))
  }

  ghost function Sum(f: MemoryId -> nat, ids: set<MemoryId>): nat {
    if ids == {} then 0
    else
      var id :| id in ids;
      f(id) + Sum(f, ids - {id})
  }

  /** The accesses that do not fit the counters of the keepers. */
  ghost function Overflow(d: Records, ms: seq<Merge>): nat {
    Sum(ExcessAt(d, ms), d.Keys)
  }

  lemma {:induction false} SumSplits(f: MemoryId -> nat, ids: set<MemoryId>, id: MemoryId)
    requires id in ids
    ensures Sum(f, ids) == f(id) + Sum(f, ids - {id})
  {
    var x :| x in ids && Sum(f, ids) == f(x) + Sum(f, ids - {x});
    if x != id {
      SumSplits(f, ids - {x}, id);
      SumSplits(f, ids - {id}, x);
      assert ids - {x} - {id} == ids - {id} - {x};
    }
  }

  lemma {:induction false} SumAgrees(f: MemoryId -> nat, g: MemoryId -> nat, ids: set<MemoryId>)
    requires forall id :: id in ids ==> f(id) == g(id)
    ensures Sum(f, ids) == Sum(g, ids)
  {
    if ids != {} {
      var id :| id in ids;
      SumSplits(f, ids, id);
      SumSplits(g, ids, id);
      SumAgrees(f, g, ids - {id});
    }
  }

  // ----- Accounts -----

  /** Merges of a batch that lists no record twice, made from a store with these keys. */
  ghost predicate Sound(keys: set<MemoryId>, ms: seq<Merge>) {
    Follows(keys, ms) && TakenOnce(ms, {}) && Keepers(ms) !! Taken(ms)
  }

  /** A keeper ends with all it had and received, as far as its counter goes. */
  lemma {:induction false} KeeperCount(d: Records, ms: seq<Merge>, id: MemoryId)
    requires Sound(d.Keys, ms) && id in d && id !in Taken(ms)
    ensures id in AfterMerges(d, ms)
    ensures AfterMerges(d, ms)[id].accessCount == Capped(d[id].accessCount + Received(ms, id))
  {
    hide AfterMerges, Taken, Keepers, Follows, TakenOnce;
    if ms == [] {
      NoMerge(d, d.Keys);
    } else {
      LastMerge(d, ms);
      KeeperCount(d, ms[..|ms| - 1], id);
    }
  }

  /** Of the accesses in the store, those of the taken records go; what the batch has for
      them comes, as far as it fits the counters of the keepers. */
  lemma {:induction false} Accounts(d: Records, ms: seq<Merge>)
    requires Sound(d.Keys, ms)
    ensures TotalAccess(AfterMerges(d, ms)) + StoredAccess(d, ms) + Overflow(d, ms) == TotalAccess(d) + TakenAccess(ms)
  {
    hide TotalAccess, Merged, Overflow, AfterMerges, Taken, Keepers, Follows, TakenOnce, Received;
    if ms == [] {
      NoMerge(d, d.Keys);
      NothingOverflowsAtFirst(d);
    } else {
      var n, x := |ms| - 1, ms[|ms| - 1];
      var before := AfterMerges(d, ms[..n]);
      LastMerge(d, ms);
      Accounts(d, ms[..n]);
      KeeperCount(d, ms[..n], x.keeper);
      OneMoreOverflow(d, ms);
      OneMergeTotal(before, x.keeper, x.absorbed);
    }
  }

  lemma NothingOverflowsAtFirst(d: Records)
    ensures Overflow(d, []) == 0
  {
    SumAgrees(ExcessAt(d, []), id => 0, d.Keys);
    SumOfNothing(d.Keys);
  }

  lemma {:induction false} SumOfNothing(ids: set<MemoryId>)
    ensures Sum(id => 0, ids) == 0
  {
    if ids != {} {
      var id :| id in ids;
      SumSplits(id => 0, ids, id);
      SumOfNothing(ids - {id});
    }
  }

  /** The last merge adds to the overflow what it lifts its keeper above the counter. */
  lemma OneMoreOverflow(d: Records, ms: seq<Merge>)
    requires ms != [] && ms[|ms| - 1].keeper in d
    ensures var n, x := |ms| - 1, ms[|ms| - 1];
            var had := d[x.keeper].accessCount + Received(ms[..n], x.keeper);
            Overflow(d, ms) + Excess(had) == Overflow(d, ms[..n]) + Excess(had + x.absorbed.accessCount)
  {
    hide Sum;
    var n, k := |ms| - 1, ms[|ms| - 1].keeper;
    SumSplits(ExcessAt(d, ms), d.Keys, k);
    SumSplits(ExcessAt(d, ms[..n]), d.Keys, k);
    SumAgrees(ExcessAt(d, ms), ExcessAt(d, ms[..n]), d.Keys - {k});
  }

  /** What one merge makes of the total, whether or not the store has the taken record. */
  lemma OneMergeTotal(d: Records, keeper: MemoryId, m: Memory)
    requires keeper in d && keeper != m.id
    ensures TotalAccess(Merged(d, keeper, m)) + d[keeper].accessCount + CountOf(d, m.id) ==
            TotalAccess(d) + Capped(d[keeper].accessCount + m.accessCount)
  {
    hide TotalAccess;
    if m.id in d {
      MergedTotal(d, keeper, m);
    } else {
      var r := Merged(d, keeper, m);
      TotalSplits(d, keeper);
      TotalSplits(r, keeper);
      assert r - {keeper} == d - {keeper};
    }
  }

  lemma {:induction false} ReceivedIsTaken(ms: seq<Merge>, keeper: MemoryId)
    ensures Received(ms, keeper) <= TakenAccess(ms)
  {
    if ms != [] {
      ReceivedIsTaken(ms[..|ms| - 1], keeper);
    }
  }

  /** Nothing overflows where all accesses together fit one counter. */
  lemma FewAccessesFit(d: Records, ms: seq<Merge>)
    requires TotalAccess(d) + TakenAccess(ms) <= MAX_COUNT
    ensures Overflow(d, ms) == 0
  {
    hide Sum, TotalAccess, Received, TakenAccess;
    forall id | id in d ensures ExcessAt(d, ms)(id) == 0 {
      TotalSplits(d, id);
      ReceivedIsTaken(ms, id);
    }
    SumAgrees(ExcessAt(d, ms), id => 0, d.Keys);
    SumOfNothing(d.Keys);
  }
}
