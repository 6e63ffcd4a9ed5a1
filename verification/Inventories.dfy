/** Agent groups: resolving the members of a group and of all its nested child groups,
    which may contain each other. */
module Inventories {
  import opened Reachability

  datatype Group = Group(members: seq<string>, children: seq<string>)

  type Groups = map<string, Group>

  ghost function ChildOf(groups: Groups): (string, string) -> bool {
    (g, c) => g in groups && c in groups[g].children
  }

  /** The agents that are direct members of one of the groups in `names`. */
  ghost function MembersOf(groups: Groups, names: set<string>): set<string> {
    set g, x | g in names && g in groups && x in groups[g].members :: x
  }

  ghost function Names(groups: Groups): set<string> {
    groups.Keys + set g, c | g in groups && c in groups[g].children :: c
  }

  /** What visiting adds: groups reached from one of `starts`, whose children are all
      visited by now, and exactly their members. */
  ghost predicate Visits(groups: Groups, starts: seq<string>, result: set<string>, visited: set<string>,
                         result': set<string>, visited': set<string>)
  {
    && visited <= visited' && (forall g :: g in starts ==> g in visited')
    && (forall g :: g in visited' - visited ==> exists s :: s in starts && Reaches(ChildOf(groups), s, g))
    && (forall g, c :: g in visited' - visited && ChildOf(groups)(g, c) ==> c in visited')
    && result' == result + MembersOf(groups, visited' - visited)
  }

  lemma MembersAdd(groups: Groups, a: set<string>, b: set<string>)
    ensures MembersOf(groups, a + b) == MembersOf(groups, a) + MembersOf(groups, b)
  {
  }

  /** One more child after others. */
  lemma VisitsChain(
      groups: Groups, done: seq<string>, next: string, r0: set<string>, v0: set<string>, r1: set<string>,
      v1: set<string>, r2: set<string>, v2: set<string>)
    requires Visits(groups, done, r0, v0, r1, v1) && Visits(groups, [next], r1, v1, r2, v2)
    ensures Visits(groups, done + [next], r0, v0, r2, v2)
  {
    MembersAdd(groups, v1 - v0, v2 - v1);
    assert v2 - v0 == (v1 - v0) + (v2 - v1);
    forall g | g in v2 - v0 ensures exists s :: s in done + [next] && Reaches(ChildOf(groups), s, g) {
      if g in v1 - v0 {
        var s :| s in done && Reaches(ChildOf(groups), s, g);
        assert s in done + [next];
      } else {
        var s :| s in [next] && Reaches(ChildOf(groups), s, g);
        assert s in done + [next];
      }
    }
  }

  lemma NothingVisited(groups: Groups, result: set<string>, visited: set<string>)
    ensures Visits(groups, [], result, visited, result, visited)
  {
    assert MembersOf(groups, visited - visited) == {};
  }

  /** Visiting all children of a group just entered is a visit of the group. */
  lemma VisitsGroup(
      groups: Groups, name: string, r0: set<string>, v0: set<string>, r1: set<string>, r2: set<string>,
      v2: set<string>)
    requires name !in v0 && r1 == r0 + MembersOf(groups, {name})
    requires Visits(groups, if name in groups then groups[name].children else [], r1, v0 + {name}, r2, v2)
    ensures Visits(groups, [name], r0, v0, r2, v2)
  {
    MembersAdd(groups, {name}, v2 - (v0 + {name}));
    assert v2 - v0 == {name} + (v2 - (v0 + {name}));
    forall g | g in v2 - v0 ensures Reaches(ChildOf(groups), name, g) {
      if g == name {
        ReachesItself(ChildOf(groups), name);
      } else {
        var c :| c in groups[name].children && Reaches(ChildOf(groups), c, g);
        ReachesThrough(ChildOf(groups), name, c, g);
      }
    }
    forall g, c | g in v2 - v0 && ChildOf(groups)(g, c) ensures c in v2 {
    }
    assert name in [name];
  }

  method ResolveGroupRecursive(groups: Groups, name: string, result: set<string>, visited: set<string>)
      returns (result': set<string>, visited': set<string>)
    ensures Visits(groups, [name], result, visited, result', visited')
    decreases Names(groups) + {name} - visited, 1
  {
    hide Visits;
    if name in visited {
      AlreadyVisited(groups, name, result, visited);
      return result, visited;
    }
    visited' := visited + {name};
    result' := result;
    if name in groups {
      var members := set x | x in groups[name].members;
      result' := result' + members;
      assert members == MembersOf(groups, {name});
      ghost var r1 := result';
      result', visited' := ResolveChildren(groups, name, result', visited');
      VisitsGroup(groups, name, result, visited, r1, result', visited');
    } else {
      assert MembersOf(groups, {name}) == {};
      NothingVisited(groups, result', visited');
      VisitsGroup(groups, name, result, visited, result', result', visited');
    }
  }

  lemma AlreadyVisited(groups: Groups, name: string, result: set<string>, visited: set<string>)
    requires name in visited
    ensures Visits(groups, [name], result, visited, result, visited)
  {
    assert MembersOf(groups, visited - visited) == {};
  }

  lemma StillFewer(groups: Groups, name: string, child: string, visited: set<string>, v: set<string>)
    requires name in groups && child in groups[name].children && name in visited && visited <= v
    ensures child in Names(groups)
    ensures Names(groups) + {child} - v <= Names(groups) + {name} - visited
  {
  }

  lemma VisitsGrow(
      groups: Groups, starts: seq<string>, r0: set<string>, v0: set<string>, r1: set<string>,
      v1: set<string>)
    requires Visits(groups, starts, r0, v0, r1, v1)
    ensures v0 <= v1
  {
  }

  /** Resolves the children of a group in order. */
  method ResolveChildren(groups: Groups, name: string, result: set<string>, visited: set<string>)
      returns (result': set<string>, visited': set<string>)
    requires name in groups && name in visited
    ensures Visits(groups, groups[name].children, result, visited, result', visited')
    decreases Names(groups) + {name} - visited, 2
  {
    hide Visits, Names;
    var children := groups[name].children;
    result', visited' := result, visited;
    NothingVisited(groups, result, visited);
    for i := 0 to |children|
      invariant Visits(groups, children[..i], result, visited, result', visited')
    {
      VisitsGrow(groups, children[..i], result, visited, result', visited');
      StillFewer(groups, name, children[i], visited, visited');
      ghost var r1, v1 := result', visited';
      result', visited' := ResolveGroupRecursive(groups, children[i], result', visited');
      VisitsChain(groups, children[..i], children[i], result, visited, r1, v1, result', visited');
      assert children[..i + 1] == children[..i] + [children[i]];
    }
    assert children[..|children|] == children;
  }

  /** Resolves a group: exactly the members of the groups reached through children, also
      when groups contain each other in a cycle; none when the group does not exist. */
  method ResolveGroupMembers(groups: Groups, name: string) returns (members: set<string>)
    ensures forall x :: x in members <==>
              exists g :: Reaches(ChildOf(groups), name, g) && g in groups && x in groups[g].members
    ensures name !in groups ==> members == {}
  {
    var visited;
    members, visited := ResolveGroupRecursive(groups, name, {}, {});
    VisitedIsReachable(groups, name, members, visited);
    if name !in groups {
      UnknownGroupReachesItself(groups, name);
    }
  }

  lemma VisitedIsReachable(groups: Groups, name: string, members: set<string>, visited: set<string>)
    requires Visits(groups, [name], {}, {}, members, visited)
    ensures forall g :: g in visited <==> Reaches(ChildOf(groups), name, g)
    ensures members == MembersOf(groups, visited)
  {
    hide MembersOf, Reaches;
    assert visited - {} == visited;
    forall g | g in visited ensures Reaches(ChildOf(groups), name, g) {
      var s :| s in [name] && Reaches(ChildOf(groups), s, g);
    }
    VisitedIsClosed(groups, name, members, visited);
    ClosedHoldsReachable(ChildOf(groups), visited, name);
  }

  lemma VisitedIsClosed(groups: Groups, name: string, members: set<string>, visited: set<string>)
    requires Visits(groups, [name], {}, {}, members, visited)
    ensures name in visited && ClosedUnder(ChildOf(groups), visited)
  {
    hide MembersOf, Reaches, ChildOf;
    assert name in [name];
    forall g, c | g in visited && ChildOf(groups)(g, c) ensures c in visited {
      assert g in visited - {};
    }
  }

  lemma UnknownGroupReachesItself(groups: Groups, name: string)
    requires name !in groups
    ensures forall g :: Reaches(ChildOf(groups), name, g) ==> g == name
  {
    assert ClosedUnder(ChildOf(groups), {name});
    ClosedHoldsReachable(ChildOf(groups), {name}, name);
  }
}
