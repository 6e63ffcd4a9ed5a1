/** Reconciling named resources of a certain size with a wanted list: the core of planning
    and applying, shared by pools (by replicas) and channels (by buffer size). */
module Reconciliation {
  import opened Prelude

  datatype Wanted = Wanted(name: string, size: nat)

  datatype Change = Create(name: string, size: nat) | Resize(name: string, size: nat) | Destroy(name: string)

  type Sizes = map<string, nat>

  /** The change one wanted resource asks for, if any. */
  function ChangeFor(have: Sizes, w: Wanted): Option<Change> {
    if w.name !in have then Some(Create(w.name, w.size))
    else if have[w.name] != w.size then Some(Resize(w.name, w.size))
    else None
  }

  function Changes(have: Sizes, wanted: seq<Wanted>): seq<Change> {
    if wanted == [] then []
    else
      var last := ChangeFor(have, wanted[|wanted| - 1]);
      Changes(have, wanted[..|wanted| - 1]) + if last.Some? then [last.value] else []
  }

  function NamesOf(wanted: seq<Wanted>): set<string> {
    set w | w in wanted :: w.name
  }

  /** `destroys` destroys exactly what is there and not wanted, in some order. */
  ghost predicate DestroysRest(have: Sizes, wanted: seq<Wanted>, destroys: seq<Change>) {
    && (forall c :: c in destroys ==> c.Destroy? && c.name in have && c.name !in NamesOf(wanted))
    && forall n :: n in have && n !in NamesOf(wanted) ==> Destroy(n) in destroys
  }

  function ApplyChange(have: Sizes, c: Change): Sizes {
    match c
    case Create(n, size) => have[n := size]
    case Resize(n, size) => if n in have then have[n := size] else have
    case Destroy(n) => have - {n}
  }

  function ApplyChanges(have: Sizes, changes: seq<Change>): Sizes {
    if changes == [] then have
    else ApplyChange(ApplyChanges(have, changes[..|changes| - 1]), changes[|changes| - 1])
  }

  lemma {:induction false} ApplyInTurn(have: Sizes, first: seq<Change>, second: seq<Change>)
    ensures ApplyChanges(have, first + second) == ApplyChanges(ApplyChanges(have, first), second)
    decreases |second|
  {
    if second == [] {
      assert first + second == first;
    } else {
      var all := first + second;
      assert all[..|all| - 1] == first + second[..|second| - 1] && all[|all| - 1] == second[|second| - 1];
      ApplyInTurn(have, first, second[..|second| - 1]);
    }
  }

  /** What there is, is what is wanted. */
  ghost predicate InSync(have: Sizes, wanted: seq<Wanted>) {
    have.Keys == NamesOf(wanted) && forall w :: w in wanted ==> w.name in have && have[w.name] == w.size
  }

  /** Entries of one name want one size. */
  ghost predicate Consistent(wanted: seq<Wanted>) {
    forall v, w :: v in wanted && w in wanted && v.name == w.name ==> v.size == w.size
  }

  lemma {:induction false} NoChangesIff(have: Sizes, wanted: seq<Wanted>)
    ensures Changes(have, wanted) == [] <==> forall w :: w in wanted ==> w.name in have && have[w.name] == w.size
  {
    if wanted != [] {
      var before, w := wanted[..|wanted| - 1], wanted[|wanted| - 1];
      NoChangesIff(have, before);
      assert wanted == before + [w];
      assert forall v :: v in wanted <==> v in before || v == w;
    }
  }

  /** A plan is empty exactly when nothing differs. */
  lemma EmptyPlanIff(have: Sizes, wanted: seq<Wanted>, destroys: seq<Change>)
    requires DestroysRest(have, wanted, destroys)
    ensures Changes(have, wanted) + destroys == [] <==> InSync(have, wanted)
  {
    NoChangesIff(have, wanted);
    NoDestroysIff(have, wanted, destroys);
    assert NamesOf(wanted) <= have.Keys <==> forall w :: w in wanted ==> w.name in have by {
      if forall w :: w in wanted ==> w.name in have {
        forall n | n in NamesOf(wanted) ensures n in have {
          var w :| w in wanted && w.name == n;
        }
      }
      forall w | w in wanted ensures w.name in NamesOf(wanted) {
      }
    }
  }

  lemma NoDestroysIff(have: Sizes, wanted: seq<Wanted>, destroys: seq<Change>)
    requires DestroysRest(have, wanted, destroys)
    ensures destroys == [] <==> have.Keys <= NamesOf(wanted)
  {
    if destroys != [] {
      assert destroys[0] in destroys;
    } else {
      forall n | n in have ensures n in NamesOf(wanted) {
        assert n !in NamesOf(wanted) ==> Destroy(n) in destroys;
      }
    }
  }

  /** Creating and resizing brings all wanted resources to their sizes. */
  lemma {:induction false} ChangesReachWanted(have: Sizes, wanted: seq<Wanted>)
    requires Consistent(wanted)
    ensures var r := ApplyChanges(have, Changes(have, wanted));
            && r.Keys == have.Keys + NamesOf(wanted)
            && forall w :: w in wanted ==> w.name in r && r[w.name] == w.size
    ensures forall n :: n in have && n !in NamesOf(wanted) ==> ApplyChanges(have, Changes(have, wanted))[n] == have[n]
  {
    if wanted != [] {
      var before, w := wanted[..|wanted| - 1], wanted[|wanted| - 1];
      assert wanted == before + [w];
      assert forall v :: v in wanted <==> v in before || v == w;
      assert NamesOf(wanted) == NamesOf(before) + {w.name};
      ChangesReachWanted(have, before);
      OneMoreChange(have, before, w, ApplyChanges(have, Changes(have, before)));
      var changes, last := Changes(have, before), ChangeFor(have, w);
      if last.Some? {
        assert (changes + [last.value])[..|changes|] == changes;
      } else {
        assert Changes(have, wanted) == changes;
      }
    }
  }

  lemma OneMoreChange(have: Sizes, before: seq<Wanted>, w: Wanted, r: Sizes)
    requires Consistent(before + [w]) && r.Keys == have.Keys + NamesOf(before)
    requires forall v :: v in before ==> v.name in r && r[v.name] == v.size
    requires forall n :: n in have && n !in NamesOf(before) ==> r[n] == have[n]
    ensures var c := ChangeFor(have, w);
            var q := if c.Some? then ApplyChange(r, c.value) else r;
            && q.Keys == have.Keys + NamesOf(before) + {w.name}
            && w.name in q && q[w.name] == w.size
            && (forall v :: v in before ==> v.name in q && q[v.name] == v.size)
            && forall n :: n in have && n !in NamesOf(before) && n != w.name ==> q[n] == have[n]
  {
    assert w in before + [w];
    forall v | v in before && v.name == w.name ensures v.size == w.size {
      assert v in before + [w];
    }
    if w.name in NamesOf(before) {
      var v :| v in before && v.name == w.name;
    }
  }

  function Named(changes: seq<Change>): set<string> {
    set c | c in changes :: c.name
  }

  lemma {:induction false} DestroyAll(have: Sizes, destroys: seq<Change>)
    requires forall c :: c in destroys ==> c.Destroy?
    ensures ApplyChanges(have, destroys) == have - Named(destroys)
  {
    if destroys == [] {
      assert have - Named(destroys) == have;
    } else {
      var before, c := destroys[..|destroys| - 1], destroys[|destroys| - 1];
      assert destroys == before + [c] && c in destroys;
      DestroyAll(have, before);
      assert Named(destroys) == Named(before) + {c.name};
      assert have - Named(before) - {c.name} == have - Named(destroys);
    }
  }

  /** Convergence: applying the plan leaves exactly what is wanted, if entries of one name
      want one size. */
  lemma PlanConverges(have: Sizes, wanted: seq<Wanted>, destroys: seq<Change>)
    requires Consistent(wanted) && DestroysRest(have, wanted, destroys)
    ensures InSync(ApplyChanges(have, Changes(have, wanted) + destroys), wanted)
  {
    var r := ApplyChanges(have, Changes(have, wanted));
    ChangesReachWanted(have, wanted);
    ApplyInTurn(have, Changes(have, wanted), destroys);
    DestroyAll(r, destroys);
    forall n ensures n in r && n !in Named(destroys) <==> n in NamesOf(wanted) {
      if n in have && n !in NamesOf(wanted) {
        assert Destroy(n) in destroys && Destroy(n).name in Named(destroys);
      }
    }
  }

  lemma {:induction false} ChangesReachNames(have: Sizes, wanted: seq<Wanted>)
    ensures ApplyChanges(have, Changes(have, wanted)).Keys == have.Keys + NamesOf(wanted)
  {
    if wanted != [] {
      var before, w := wanted[..|wanted| - 1], wanted[|wanted| - 1];
      assert wanted == before + [w];
      assert NamesOf(wanted) == NamesOf(before) + {w.name};
      ChangesReachNames(have, before);
      var changes, last := Changes(have, before), ChangeFor(have, w);
      if last.Some? {
        assert (changes + [last.value])[..|changes|] == changes;
      } else {
        assert Changes(have, wanted) == changes;
      }
    }
  }

  /** Applying the plan leaves exactly the wanted names, whether or not entries agree. */
  lemma PlanReachesNames(have: Sizes, wanted: seq<Wanted>, destroys: seq<Change>)
    requires DestroysRest(have, wanted, destroys)
    ensures ApplyChanges(have, Changes(have, wanted) + destroys).Keys == NamesOf(wanted)
  {
    var r := ApplyChanges(have, Changes(have, wanted));
    ChangesReachNames(have, wanted);
    ApplyInTurn(have, Changes(have, wanted), destroys);
    DestroyAll(r, destroys);
    forall n ensures n in r && n !in Named(destroys) <==> n in NamesOf(wanted) {
      if n in have && n !in NamesOf(wanted) {
        assert Destroy(n) in destroys && Destroy(n).name in Named(destroys);
      }
    }
  }

  /** No state is in sync with entries of one name that want two sizes. */
  lemma SyncNeedsConsistency(have: Sizes, wanted: seq<Wanted>)
    requires InSync(have, wanted)
    ensures Consistent(wanted)
  {
  }
}
