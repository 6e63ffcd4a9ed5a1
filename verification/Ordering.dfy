/** The order in which ready nodes are taken: higher priority first, then by name,
    then as given (the sort is stable). */
module Ordering {
  import opened Prelude
  import opened Nodes

  /** Lexicographic comparison of names. */
  predicate NameAtMost(a: string, b: string) {
    if a == "" then true
    else if b == "" then false
    else a[0] < b[0] || (a[0] == b[0] && NameAtMost(a[1..], b[1..]))
  }

  lemma {:induction false} NamesAreOrdered(a: string, b: string, c: string)
    ensures NameAtMost(a, b) || NameAtMost(b, a)
    ensures NameAtMost(a, b) && NameAtMost(b, c) ==> NameAtMost(a, c)
    decreases |a|
  {
    if a != "" && b != "" {
      NamesAreOrdered(a[1..], b[1..], if c == "" then "" else c[1..]);
    }
  }

  /** The names agree up to some place, where `a` ends or has the smaller character. */
  ghost predicate Lexicographic(a: string, b: string) {
    exists k: nat :: k <= |a| && k <= |b| && a[..k] == b[..k] && (k == |a| || (k < |b| && a[k] < b[k]))
  }

  lemma {:induction false} NamesAreLexicographic(a: string, b: string)
    ensures NameAtMost(a, b) <==> Lexicographic(a, b)
  {
    if a == "" {
      assert a[..0] == b[..0];
    } else if b != "" {
      NamesAreLexicographic(a[1..], b[1..]);
      if a[0] == b[0] && Lexicographic(a[1..], b[1..]) {
        var k: nat :| k <= |a[1..]| && k <= |b[1..]| && a[1..][..k] == b[1..][..k]
          && (k == |a[1..]| || (k < |b[1..]| && a[1..][k] < b[1..][k]));
        assert a[..k + 1] == [a[0]] + a[1..][..k] && b[..k + 1] == [b[0]] + b[1..][..k];
        assert k + 1 <= |a| && k + 1 <= |b|;
      }
      if a[0] < b[0] {
        assert a[..0] == b[..0];
      }
      if Lexicographic(a, b) {
        var k: nat :| k <= |a| && k <= |b| && a[..k] == b[..k] && (k == |a| || (k < |b| && a[k] < b[k]));
        if k > 0 {
          assert a[0] == a[..k][0] == b[..k][0] == b[0];
          assert a[1..][..k - 1] == a[..k][1..] && b[1..][..k - 1] == b[..k][1..];
          assert k - 1 <= |a[1..]| && (k - 1 == |a[1..]| || a[1..][k - 1] < b[1..][k - 1]);
        }
      }
    }
  }

  predicate AtMost(m: map<NodeId, Node>, a: NodeId, b: NodeId)
    requires a in m && b in m
  {
    m[a].priority > m[b].priority || (m[a].priority == m[b].priority && NameAtMost(m[a].name, m[b].name))
  }

  function Insert(m: map<NodeId, Node>, x: NodeId, sorted: seq<NodeId>): (r: seq<NodeId>)
    requires x in m && forall y :: y in sorted ==> y in m
    ensures multiset(r) == multiset{x} + multiset(sorted)
    ensures forall y :: y in r <==> y == x || y in sorted
  {
    if sorted == [] then [x]
    else
      assert sorted == [sorted[0]] + sorted[1..];
      if AtMost(m, x, sorted[0]) then [x] + sorted
      else [sorted[0]] + Insert(m, x, sorted[1..])
  }

  /** The ready nodes in the order they are taken. */
  function SortReady(m: map<NodeId, Node>, ready: seq<NodeId>): (r: seq<NodeId>)
    requires forall x :: x in ready ==> x in m
    ensures multiset(r) == multiset(ready)
    ensures forall x :: x in r <==> x in ready
  {
    if ready == [] then []
    else
      assert ready == [ready[0]] + ready[1..];
      Insert(m, ready[0], SortReady(m, ready[1..]))
  }

  ghost predicate Ordered(m: map<NodeId, Node>, s: seq<NodeId>)
    requires forall x :: x in s ==> x in m
  {
    forall i, j :: 0 <= i < j < |s| ==> AtMost(m, s[i], s[j])
  }

  lemma {:induction false} InsertKeepsOrder(m: map<NodeId, Node>, x: NodeId, sorted: seq<NodeId>)
    requires x in m && (forall y :: y in sorted ==> y in m) && Ordered(m, sorted)
    ensures Ordered(m, Insert(m, x, sorted))
  {
    var r := Insert(m, x, sorted);
    if sorted != [] {
      if AtMost(m, x, sorted[0]) {
        forall j | 0 < j < |r| ensures AtMost(m, x, r[j]) {
          NamesAreOrdered(m[x].name, m[sorted[0]].name, m[r[j]].name);
        }
      } else {
        InsertKeepsOrder(m, x, sorted[1..]);
        forall j | 0 < j < |r| ensures AtMost(m, sorted[0], r[j]) {
          assert r[j] in Insert(m, x, sorted[1..]);
          NamesAreOrdered(m[x].name, m[sorted[0]].name, m[x].name);
          if r[j] != x {
            var k :| 0 <= k < |sorted[1..]| && sorted[1..][k] == r[j];
          }
        }
      }
    }
  }

  /** Sorting orders by priority, then name, and loses or repeats nothing. */
  lemma {:induction false} SortReadyOrders(m: map<NodeId, Node>, ready: seq<NodeId>)
    requires forall x :: x in ready ==> x in m
    ensures Ordered(m, SortReady(m, ready))
    ensures |SortReady(m, ready)| == |ready|
    ensures Distinct(ready) ==> Distinct(SortReady(m, ready))
  {
    if ready != [] {
      SortReadyOrders(m, ready[1..]);
      InsertKeepsOrder(m, ready[0], SortReady(m, ready[1..]));
    }
    assert |multiset(SortReady(m, ready))| == |multiset(ready)|;
    if Distinct(ready) {
      SameElementsDistinct(ready, SortReady(m, ready));
    }
  }

  lemma {:induction false} DistinctCounts<T>(s: seq<T>)
    ensures Distinct(s) <==> forall x :: x in s ==> multiset(s)[x] == 1
  {
    if s != [] {
      DistinctCounts(s[1..]);
      assert s == [s[0]] + s[1..];
      if forall x :: x in s ==> multiset(s)[x] == 1 {
        assert multiset(s)[s[0]] == 1;
        forall x | x in s[1..] ensures multiset(s[1..])[x] == 1 {
          assert x in s && multiset(s)[x] == 1;
        }
      }
      if Distinct(s) {
        forall x | x in s ensures multiset(s)[x] == 1 {
          if x == s[0] {
            assert x !in s[1..];
          } else {
            assert x in s[1..];
          }
        }
      }
    }
  }

  lemma SameElementsDistinct<T>(s: seq<T>, r: seq<T>)
    requires Distinct(s) && multiset(r) == multiset(s)
    ensures Distinct(r)
  {
    DistinctCounts(s);
    DistinctCounts(r);
    forall x | x in r ensures multiset(r)[x] == 1 {
      assert x in multiset(r) && x in multiset(s);
    }
  }

  /** The members of `s` with the priority and name of `z`, in their order in `s`. */
  function Tied(m: map<NodeId, Node>, z: NodeId, s: seq<NodeId>): seq<NodeId>
    requires z in m && forall x :: x in s ==> x in m
  {
    if s == [] then []
    else (if m[s[0]].priority == m[z].priority && m[s[0]].name == m[z].name then [s[0]] else []) + Tied(m, z, s[1..])
  }

  predicate IsTied(m: map<NodeId, Node>, z: NodeId, x: NodeId)
    requires z in m && x in m
  {
    m[x].priority == m[z].priority && m[x].name == m[z].name
  }

  lemma TiedFirst(m: map<NodeId, Node>, z: NodeId, x: NodeId, rest: seq<NodeId>)
    requires z in m && x in m && forall y :: y in rest ==> y in m
    ensures Tied(m, z, [x] + rest) == (if IsTied(m, z, x) then [x] else []) + Tied(m, z, rest)
  {
    assert ([x] + rest)[1..] == rest;
  }

  lemma TiedGoFirst(m: map<NodeId, Node>, z: NodeId, x: NodeId, y: NodeId)
    requires z in m && x in m && y in m && IsTied(m, z, x) && IsTied(m, z, y)
    ensures AtMost(m, x, y)
  {
    NamesAreOrdered(m[x].name, m[x].name, m[x].name);
  }

  lemma {:induction false} InsertIsStable(m: map<NodeId, Node>, z: NodeId, x: NodeId, sorted: seq<NodeId>)
    requires z in m && x in m && forall y :: y in sorted ==> y in m
    ensures Tied(m, z, Insert(m, x, sorted)) == (if IsTied(m, z, x) then [x] else []) + Tied(m, z, sorted)
  {
    hide AtMost, IsTied, Tied;
    TiedFirst(m, z, x, sorted);
    if sorted == [] {
      assert [x] + sorted == [x];
    } else {
      var y, rest := sorted[0], sorted[1..];
      assert sorted == [y] + rest && y in sorted;
      if !AtMost(m, x, y) {
        InsertIsStable(m, z, x, rest);
        TiedFirst(m, z, y, rest);
        TiedFirst(m, z, y, Insert(m, x, rest));
        if IsTied(m, z, x) && IsTied(m, z, y) {
          TiedGoFirst(m, z, x, y);
        }
      }
    }
  }

  /** Sorting is stable: nodes of equal priority and name keep their order. */
  lemma {:induction false} SortReadyIsStable(m: map<NodeId, Node>, z: NodeId, ready: seq<NodeId>)
    requires z in m && forall x :: x in ready ==> x in m
    ensures Tied(m, z, SortReady(m, ready)) == Tied(m, z, ready)
  {
    if ready != [] {
      hide Insert;
      assert ready == [ready[0]] + ready[1..];
      TiedFirst(m, z, ready[0], ready[1..]);
      SortReadyIsStable(m, z, ready[1..]);
      InsertIsStable(m, z, ready[0], SortReady(m, ready[1..]));
    }
  }
}
