/** Memory records, their similarity, and what merging one record into another keeps. */
module Memories {
  import opened Prelude

  type MemoryId = nat

  const MAX_COUNT: nat := 0xFFFF_FFFF_FFFF_FFFF

  /** An access counter of 64 bits; adding to it saturates. */
  type Count = n: nat | n <= MAX_COUNT

  function Capped(n: nat): Count {
    if n > MAX_COUNT then MAX_COUNT else n
  }

  /** The words are those of the content's text in lower case. */
  datatype Memory = Memory(
    id: MemoryId,
    kind: string,
    words: set<string>,
    createdAt: nat,
    accessCount: Count,
    importance: real,
    tags: seq<string>,
    sourceAgent: Option<nat>,
    sourceConversation: Option<nat>)

  const PROVENANCE_PREFIX: string := "distilled_from:"

  predicate IsProvenance(tag: string) {
    |PROVENANCE_PREFIX| <= |tag| && tag[..|PROVENANCE_PREFIX|] == PROVENANCE_PREFIX
  }

  function Provenance(tags: seq<string>): seq<string> {
    if tags == [] then []
    else (if IsProvenance(tags[0]) then [tags[0]] else []) + Provenance(tags[1..])
  }

  /** Jaccard similarity of two word sets: the words they share, of all the words there are. */
  function Similarity(a: set<string>, b: set<string>): (r: real)
    ensures 0.0 <= r <= 1.0
    ensures r * (|a| + |b| - |a * b|) as real == |a * b| as real
    ensures r == 1.0 <==> a == b
    ensures r == 0.0 <==> a != b && a !! b
  {
    if a == {} && b == {} then 1.0
    else if a == {} || b == {} then 0.0
    else
      SubsetCardinality(a * b, a + b);
      assert a * b == a + b ==> a == b;
      assert a + b != {} && |a + b| > 0;
      EmptyMeetIsDisjoint(a, b);
      Quotient(|a * b|, |a + b|);
      UnionSize(a, b);
      |a * b| as real / |a + b| as real
  }

  lemma EmptyMeetIsDisjoint<T>(a: set<T>, b: set<T>)
    ensures |a * b| == 0 <==> a !! b
  {
    if x :| x in a && x in b {
      assert x in a * b;
    } else {
      assert a * b == {};
    }
  }

  lemma Quotient(n: nat, m: nat)
    requires n <= m && m > 0
    ensures 0.0 <= n as real / m as real <= 1.0 && n as real / m as real * m as real == n as real
    ensures n as real / m as real == 1.0 <==> n == m
    ensures n as real / m as real == 0.0 <==> n == 0
  {
  }

  lemma SimilarityIsSymmetric(a: set<string>, b: set<string>)
    ensures Similarity(a, b) == Similarity(b, a)
  {
    assert a * b == b * a && a + b == b + a;
  }

  /** Records that merging may collapse: one owner, one conversation, one provenance, and
      contents at least as similar as the threshold. */
  predicate Mergeable(threshold: real, a: Memory, b: Memory) {
    && a.sourceAgent == b.sourceAgent && a.sourceConversation == b.sourceConversation
    && Provenance(a.tags) == Provenance(b.tags)
    && Similarity(a.words, b.words) >= threshold
  }

  // ----- What mergeable records have in common -----

  /** Every tag that names a provenance is found as often in both. */
  ghost predicate SameProvenance(a: seq<string>, b: seq<string>) {
    forall tag: string :: |tag| >= 15 && tag[..15] == "distilled_from:" ==> multiset(a)[tag] == multiset(b)[tag]
  }

  /** The shared words are a large enough part of all words; two empty texts are equal. */
  ghost predicate SharesEnough(threshold: real, a: set<string>, b: set<string>) {
    if a == {} && b == {} then threshold <= 1.0
    else |a * b| as real >= threshold * (|a| + |b| - |a * b|) as real
  }

  lemma SimilarIffSharesEnough(threshold: real, a: set<string>, b: set<string>)
    ensures Similarity(a, b) >= threshold <==> SharesEnough(threshold, a, b)
  {
    hide Similarity;
    if a != {} || b != {} {
      UnionSize(a, b);
      Scaled(Similarity(a, b), threshold, |a| + |b| - |a * b|, |a * b|);
    }
  }

  lemma UnionSize<T>(a: set<T>, b: set<T>)
    ensures |a + b| == |a| + |b| - |a * b|
    ensures a != {} || b != {} ==> |a| + |b| - |a * b| > 0
  {
    assert a + b != {} ==> |a + b| > 0;
  }

  lemma Scaled(r: real, threshold: real, n: nat, k: nat)
    requires n > 0 && r * n as real == k as real
    ensures r >= threshold <==> k as real >= threshold * n as real
  {
    var x := n as real;
    assert (r - threshold) * x == r * x - threshold * x;
    if r < threshold {
      assert (threshold - r) * x > 0.0;
    }
  }

  lemma {:induction false} ProvenanceCounts(tags: seq<string>, tag: string)
    ensures multiset(Provenance(tags))[tag] == if IsProvenance(tag) then multiset(tags)[tag] else 0
  {
    if tags != [] {
      var first := if IsProvenance(tags[0]) then [tags[0]] else [];
      assert tags == [tags[0]] + tags[1..];
      assert multiset(Provenance(tags)) == multiset(first) + multiset(Provenance(tags[1..]));
      ProvenanceCounts(tags[1..], tag);
    }
  }

  lemma {:induction false} NoProvenance(tags: seq<string>)
    requires forall tag :: tag in tags ==> !(|tag| >= 15 && tag[..15] == "distilled_from:")
    ensures Provenance(tags) == []
  {
    if tags != [] {
      assert tags[0] in tags;
      NoProvenance(tags[1..]);
    }
  }

  /** Records are mergeable only if they have one owner, one conversation and one provenance,
      and share enough words; and with the same tags, or tags that name no provenance, these
      conditions suffice. */
  lemma MergeableByFields(threshold: real, a: Memory, b: Memory)
    ensures Mergeable(threshold, a, b) ==>
              && a.sourceAgent == b.sourceAgent && a.sourceConversation == b.sourceConversation
              && SameProvenance(a.tags, b.tags) && SharesEnough(threshold, a.words, b.words)
    ensures && a.sourceAgent == b.sourceAgent && a.sourceConversation == b.sourceConversation
            && SharesEnough(threshold, a.words, b.words)
            && (a.tags == b.tags || (forall tag :: tag in a.tags + b.tags ==>
                                       !(|tag| >= 15 && tag[..15] == "distilled_from:")))
            ==> Mergeable(threshold, a, b)
  {
    hide Similarity, SharesEnough, Provenance;
    SimilarIffSharesEnough(threshold, a.words, b.words);
    if Provenance(a.tags) == Provenance(b.tags) {
      forall tag: string | |tag| >= 15 && tag[..15] == "distilled_from:"
        ensures multiset(a.tags)[tag] == multiset(b.tags)[tag]
      {
        ProvenanceCounts(a.tags, tag);
        ProvenanceCounts(b.tags, tag);
      }
    }
    if forall tag :: tag in a.tags + b.tags ==> !(|tag| >= 15 && tag[..15] == "distilled_from:") {
      NoProvenance(a.tags);
      NoProvenance(b.tags);
    }
  }

  lemma MergeableIsSymmetric(threshold: real, a: Memory, b: Memory)
    ensures Mergeable(threshold, a, b) <==> Mergeable(threshold, b, a)
  {
    SimilarityIsSymmetric(a.words, b.words);
  }

  function MergeTags(tags: seq<string>, more: seq<string>): (r: seq<string>)
    ensures Elements(r) == Elements(tags) + Elements(more) && tags <= r
    decreases |more|
  {
    if more == [] then tags
    else
      assert Elements(more) == {more[0]} + Elements(more[1..]);
      assert Elements(tags + [more[0]]) == Elements(tags) + {more[0]};
      MergeTags(if more[0] in tags then tags else tags + [more[0]], more[1..])
  }

  /** The keeper after absorbing `m`. */
  function Absorb(keeper: Memory, m: Memory): (r: Memory)
    ensures r == keeper.(accessCount := r.accessCount, importance := r.importance, tags := r.tags)
    ensures Elements(r.tags) == Elements(keeper.tags) + Elements(m.tags)
  {
    keeper.(accessCount := Capped(keeper.accessCount + m.accessCount),
            importance := if keeper.importance < m.importance then m.importance else keeper.importance,
            tags := MergeTags(keeper.tags, m.tags))
  }

  type Records = map<MemoryId, Memory>

  /** The store after `m` was merged into the record `keeper`. */
  function Merged(d: Records, keeper: MemoryId, m: Memory): Records
    requires keeper in d
  {
    d[keeper := Absorb(d[keeper], m)] - {m.id}
  }

  // ----- Totals over a store -----

  ghost function TotalAccess(d: Records): nat
    decreases d.Keys
  {
    if d == map[] then 0
    else
      var id :| id in d;
      d[id].accessCount + TotalAccess(d - {id})
  }

  lemma {:induction false} TotalSplits(d: Records, id: MemoryId)
    requires id in d
    ensures TotalAccess(d) == d[id].accessCount + TotalAccess(d - {id})
    decreases d.Keys
  {
    var x :| x in d && TotalAccess(d) == d[x].accessCount + TotalAccess(d - {x});
    if x != id {
      TotalSplits(d - {x}, id);
      TotalSplits(d - {id}, x);
      assert d - {x} - {id} == d - {id} - {x};
    }
  }

  ghost function AllTags(d: Records): set<string> {
    set id, t | id in d && t in d[id].tags :: t
  }

  /** `x` bounds the importance of every record. */
  ghost predicate BoundsImportance(d: Records, x: real) {
    forall id :: id in d ==> d[id].importance <= x
  }

  /** What one merge makes of the total: the count of the removed record goes, the sum that
      the keeper now has comes. */
  lemma MergedTotal(d: Records, keeper: MemoryId, m: Memory)
    requires keeper in d && m.id in d && keeper != m.id
    ensures TotalAccess(Merged(d, keeper, m)) + d[keeper].accessCount + d[m.id].accessCount ==
            TotalAccess(d) + Absorb(d[keeper], m).accessCount
  {
    var r := Merged(d, keeper, m);
    TotalSplits(d, keeper);
    TotalSplits(d - {keeper}, m.id);
    TotalSplits(r, keeper);
    assert r - {keeper} == d - {keeper} - {m.id};
  }

  /** One merge keeps the total exactly when the counts of the two stored records fit one
      counter, and the copy that is merged has the stored count, or more than that where
      the stored counts fill the counter. */
  lemma MergeKeepsTotalIff(d: Records, keeper: MemoryId, m: Memory)
    requires keeper in d && m.id in d && keeper != m.id
    ensures var k, s := d[keeper].accessCount, d[m.id].accessCount;
            TotalAccess(Merged(d, keeper, m)) == TotalAccess(d) <==>
            k + s <= MAX_COUNT && (m.accessCount == s || (k + s == MAX_COUNT && m.accessCount > s))
  {
    MergedTotal(d, keeper, m);
  }

  /** What a merge of an up-to-date record conserves, short of saturation of the count. */
  ghost predicate Conserves(d: Records, r: Records) {
    && (TotalAccess(d) <= MAX_COUNT ==> TotalAccess(r) == TotalAccess(d))
    && AllTags(r) == AllTags(d)
    && (forall x :: BoundsImportance(r, x) <==> BoundsImportance(d, x))
    && forall id :: id in r ==>
         id in d
         && r[id] == d[id].(accessCount := r[id].accessCount, importance := r[id].importance, tags := r[id].tags)
  }

  lemma MergeConserves(d: Records, keeper: MemoryId, m: Memory)
    requires keeper in d && m.id in d && keeper != m.id && d[m.id] == m
    ensures Conserves(d, Merged(d, keeper, m))
  {
    MergeKeepsTotalIff(d, keeper, m);
    TotalSplits(d, keeper);
    TotalSplits(d - {keeper}, m.id);
    MergeKeepsTags(d, keeper, m);
    MergeKeepsImportance(d, keeper, m);
  }

  lemma MergeKeepsTags(d: Records, keeper: MemoryId, m: Memory)
    requires keeper in d && m.id in d && keeper != m.id && d[m.id] == m
    ensures AllTags(Merged(d, keeper, m)) == AllTags(d)
  {
    var r := Merged(d, keeper, m);
    assert forall t :: t in r[keeper].tags <==> t in d[keeper].tags || t in m.tags by {
      assert forall t :: t in r[keeper].tags <==> t in Elements(r[keeper].tags);
    }
    forall t | t in AllTags(d) ensures t in AllTags(r) {
      var id :| id in d && t in d[id].tags;
      if id == m.id {
        assert t in r[keeper].tags;
      } else {
        assert id in r && t in r[id].tags;
      }
    }
    forall t | t in AllTags(r) ensures t in AllTags(d) {
      var id :| id in r && t in r[id].tags;
      if id == keeper && t !in d[keeper].tags {
        assert t in d[m.id].tags;
      }
    }
  }

  lemma MergeKeepsImportance(d: Records, keeper: MemoryId, m: Memory)
    requires keeper in d && m.id in d && keeper != m.id && d[m.id] == m
    ensures forall x :: BoundsImportance(Merged(d, keeper, m), x) <==> BoundsImportance(d, x)
  {
    var r := Merged(d, keeper, m);
    forall x ensures BoundsImportance(r, x) <==> BoundsImportance(d, x) {
      if BoundsImportance(r, x) {
        assert r[keeper].importance <= x;
        forall id | id in d ensures d[id].importance <= x {
          if id != keeper && id != m.id {
            assert id in r && r[id] == d[id];
          }
        }
      }
    }
  }

  lemma ConservesChain(d: Records, e: Records, r: Records)
    requires Conserves(d, e) && Conserves(e, r)
    ensures Conserves(d, r)
  {
    hide TotalAccess, AllTags, BoundsImportance;
  }

  lemma NothingIsConserved(d: Records)
    ensures Conserves(d, d)
  {
  }

  /** An outdated copy of a record loses accesses: the batch saw one, the store has five. */
  lemma OutdatedCopyLosesAccesses()
    ensures var m := Memory(1, "semantic", {}, 1, 1, 0.5, [], None, None);
            var d := map[0 := m.(id := 0), 1 := m.(accessCount := 5)];
            TotalAccess(Merged(d, 0, m)) != TotalAccess(d)
  {
    var m := Memory(1, "semantic", {}, 1, 1, 0.5, [], None, None);
    MergeKeepsTotalIff(map[0 := m.(id := 0), 1 := m.(accessCount := 5)], 0, m);
  }
}
