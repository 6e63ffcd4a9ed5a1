/** Paths and reachability of an arbitrary relation. */
module Reachability {

  ghost predicate Path<T(!new)>(step: (T, T) -> bool, p: seq<T>) {
    |p| > 0 && forall i :: 0 <= i < |p| - 1 ==> step(p[i], p[i + 1])
  }

  ghost predicate PathBetween<T(!new)>(step: (T, T) -> bool, p: seq<T>, u: T, v: T) {
    Path(step, p) && p[0] == u && p[|p| - 1] == v
  }

  ghost predicate Reaches<T(!new)>(step: (T, T) -> bool, u: T, v: T) {
    exists p :: PathBetween(step, p, u, v)
  }

  ghost predicate ClosedUnder<T(!new)>(step: (T, T) -> bool, nodes: set<T>) {
    forall u, v :: u in nodes && step(u, v) ==> v in nodes
  }

  lemma ReachesItself<T(!new)>(step: (T, T) -> bool, u: T)
    ensures Reaches(step, u, u)
  {
    assert PathBetween(step, [u], u, u);
  }

  lemma ReachesFurther<T(!new)>(step: (T, T) -> bool, u: T, v: T, w: T)
    requires Reaches(step, u, v) && step(v, w)
    ensures Reaches(step, u, w)
  {
    var p :| PathBetween(step, p, u, v);
    assert PathBetween(step, p + [w], u, w);
  }

  lemma ReachesThrough<T(!new)>(step: (T, T) -> bool, u: T, v: T, w: T)
    requires step(u, v) && Reaches(step, v, w)
    ensures Reaches(step, u, w)
  {
    var p :| PathBetween(step, p, v, w);
    var q := [u] + p;
    forall i | 0 <= i < |q| - 1 ensures step(q[i], q[i + 1]) {
      if i > 0 {
        assert step(p[i - 1], p[i - 1 + 1]);
      }
    }
    assert PathBetween(step, q, u, w);
  }

  lemma {:induction false} PathStaysInside<T(!new)>(step: (T, T) -> bool, nodes: set<T>, p: seq<T>)
    requires Path(step, p) && p[0] in nodes && ClosedUnder(step, nodes)
    ensures p[|p| - 1] in nodes
  {
    if |p| > 1 {
      assert step(p[0], p[1]);
      assert Path(step, p[1..]);
      PathStaysInside(step, nodes, p[1..]);
    }
  }

  lemma ClosedHoldsReachable<T(!new)>(step: (T, T) -> bool, nodes: set<T>, u: T)
    requires u in nodes && ClosedUnder(step, nodes)
    ensures forall v :: Reaches(step, u, v) ==> v in nodes
  {
    forall v | Reaches(step, u, v) ensures v in nodes {
      var p :| PathBetween(step, p, u, v);
      PathStaysInside(step, nodes, p);
    }
  }

  /** Reachability reverses with the relation. */
  lemma ReachesBack<T(!new)>(step: (T, T) -> bool, back: (T, T) -> bool, u: T, v: T)
    requires Reaches(step, u, v) && forall x, y :: step(x, y) ==> back(y, x)
    ensures Reaches(back, v, u)
  {
    var p :| PathBetween(step, p, u, v);
    var q := seq(|p|, i requires 0 <= i < |p| => p[|p| - 1 - i]);
    forall i | 0 <= i < |q| - 1 ensures back(q[i], q[i + 1]) {
      assert step(p[|p| - 2 - i], p[|p| - 2 - i + 1]);
    }
    assert PathBetween(back, q, v, u);
  }
}
