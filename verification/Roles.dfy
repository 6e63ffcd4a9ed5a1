/** Ordering roles after their dependencies by depth-first search. */
module Roles {
  import opened Prelude
  import opened Reachability

  datatype Role = Role(name: string, dependencies: seq<string>)

  datatype RoleError = CyclicDependency(name: string)

  type RoleMap = map<string, Role>

  /** The roles by name; of two roles with one name the later counts. */
  function MapOf(roles: seq<Role>): (m: RoleMap)
    ensures forall i :: 0 <= i < |roles| ==> roles[i].name in m
    ensures forall n :: n in m ==> m[n] in roles && m[n].name == n
  {
    if roles == [] then map[]
    else
      var last := roles[|roles| - 1];
      MapOf(roles[..|roles| - 1])[last.name := last]
  }

  /** No later role has the name of role `i`. */
  ghost predicate IsLast(roles: seq<Role>, i: nat)
    requires i < |roles|
  {
    forall j :: i < j < |roles| ==> roles[j].name != roles[i].name
  }

  lemma {:induction false} LastRoleCounts(roles: seq<Role>, i: nat)
    requires i < |roles| && IsLast(roles, i)
    ensures roles[i].name in MapOf(roles) && MapOf(roles)[roles[i].name] == roles[i]
  {
    hide MapOf;
    OneMoreRole(roles);
    var n := |roles| - 1;
    if i < n {
      StillLast(roles, i);
      LastRoleCounts(roles[..n], i);
    }
  }

  lemma StillLast(roles: seq<Role>, i: nat)
    requires i < |roles| - 1 && IsLast(roles, i)
    ensures IsLast(roles[..|roles| - 1], i) && roles[|roles| - 1].name != roles[i].name
  {
  }

  lemma OneMoreRole(roles: seq<Role>)
    requires roles != []
    ensures MapOf(roles) == MapOf(roles[..|roles| - 1])[roles[|roles| - 1].name := roles[|roles| - 1]]
  {
  }

  function DependenciesOf(m: RoleMap, name: string): seq<string> {
    if name in m then m[name].dependencies else []
  }

  ghost function DependsOn(m: RoleMap): (string, string) -> bool {
    (a, b) => b in DependenciesOf(m, a)
  }

  ghost predicate OnCycle(m: RoleMap, name: string) {
    exists p :: PathBetween(DependsOn(m), p, name, name) && |p| > 1
  }

  /** No name twice, and every name after all its dependencies. */
  ghost predicate DependencyOrder(m: RoleMap, order: seq<string>) {
    && Distinct(order)
    && forall i, d :: 0 <= i < |order| && DependsOn(m)(order[i], d) ==> d in order[..i]
  }

  ghost function Names(m: RoleMap): set<string> {
    m.Keys + set n, d | n in m && d in m[n].dependencies :: d
  }

  /** The names being visited form a path of dependencies. */
  ghost predicate IsStack(m: RoleMap, stack: seq<string>, inStack: set<string>) {
    Elements(stack) == inStack && forall i :: 0 <= i < |stack| - 1 ==> DependsOn(m)(stack[i], stack[i + 1])
  }

  /** `order'` extends `order` by names reachable from `starts`, and covers these. */
  ghost predicate Extends(m: RoleMap, starts: seq<string>, order: seq<string>, order': seq<string>) {
    && order <= order' && (forall s :: s in starts ==> s in order')
    && forall n :: n in order' && n !in order ==> exists s :: s in starts && Reaches(DependsOn(m), s, n)
  }

  lemma NothingExtends(m: RoleMap, order: seq<string>)
    ensures Extends(m, [], order, order)
  {
  }

  lemma ExtendsChain(m: RoleMap, done: seq<string>, next: string, o0: seq<string>, o1: seq<string>, o2: seq<string>)
    requires Extends(m, done, o0, o1) && Extends(m, [next], o1, o2)
    ensures Extends(m, done + [next], o0, o2)
  {
    hide Reaches;
    assert next in [next];
    forall s | s in done + [next] ensures s in o2 {
      assert s in done ==> s in o1;
    }
    forall n | n in o2 && n !in o0 ensures exists s :: s in done + [next] && Reaches(DependsOn(m), s, n) {
      if n in o1 {
        var s :| s in done && Reaches(DependsOn(m), s, n);
        assert s in done + [next];
      } else {
        var s :| s in [next] && Reaches(DependsOn(m), s, n);
        assert s in done + [next];
      }
    }
  }

  /** A name met again on the stack closes a cycle. */
  lemma MetAgainIsCycle(m: RoleMap, stack: seq<string>, inStack: set<string>, name: string)
    requires IsStack(m, stack, inStack) && name in inStack
    requires stack != [] ==> DependsOn(m)(stack[|stack| - 1], name)
    ensures OnCycle(m, name)
  {
    assert name in Elements(stack);
    var i :| 0 <= i < |stack| && stack[i] == name;
    var p := stack[i..] + [name];
    forall k | 0 <= k < |p| - 1 ensures DependsOn(m)(p[k], p[k + 1]) {
      assert p[k] == stack[i + k];
      if k < |p| - 2 {
        assert DependsOn(m)(stack[i + k], stack[i + k + 1]);
      }
    }
    assert PathBetween(DependsOn(m), p, name, name);
  }

  lemma Pushed(m: RoleMap, stack: seq<string>, inStack: set<string>, name: string)
    requires IsStack(m, stack, inStack)
    requires stack != [] ==> DependsOn(m)(stack[|stack| - 1], name)
    ensures IsStack(m, stack + [name], inStack + {name})
  {
    assert Elements(stack + [name]) == Elements(stack) + {name};
  }

  /** Appending a name whose dependencies have all been placed. */
  lemma Placed(m: RoleMap, name: string, order: seq<string>, extended: seq<string>)
    requires Extends(m, DependenciesOf(m, name), order, extended)
    requires DependencyOrder(m, extended) && name !in extended
    ensures Extends(m, [name], order, extended + [name]) && DependencyOrder(m, extended + [name])
  {
    hide Reaches;
    var all := extended + [name];
    forall n | n in all && n !in order ensures exists s :: s in [name] && Reaches(DependsOn(m), s, n) {
      assert name in [name];
      if n in extended {
        var d :| d in DependenciesOf(m, name) && Reaches(DependsOn(m), d, n);
        ReachesThrough(DependsOn(m), name, d, n);
      } else {
        ReachesItself(DependsOn(m), name);
      }
    }
    forall i, d | 0 <= i < |all| && DependsOn(m)(all[i], d) ensures d in all[..i] {
      assert all[..i] == extended[..i];
      if i == |extended| {
        assert extended[..i] == extended;
      }
    }
  }

  lemma DependencyIsNamed(m: RoleMap, name: string, i: nat)
    requires i < |DependenciesOf(m, name)|
    ensures DependenciesOf(m, name)[i] in Names(m)
    ensures DependsOn(m)(name, DependenciesOf(m, name)[i])
  {
    assert name in m && DependenciesOf(m, name)[i] in m[name].dependencies;
  }

  /** Visits one role: places its dependencies, then itself, or reports a name met again
      while it is still being visited. */
  method VisitRole(
      name: string, m: RoleMap, visited: set<string>, inStack: set<string>, order: seq<string>,
      ghost stack: seq<string>)
      returns (r: Result<(), RoleError>, visited': set<string>, inStack': set<string>, order': seq<string>)
    requires name in Names(m) && inStack <= Names(m)
    requires IsStack(m, stack, inStack) && (stack != [] ==> DependsOn(m)(stack[|stack| - 1], name))
    requires visited == Elements(order) && visited !! inStack && DependencyOrder(m, order)
    ensures r.Err? ==> OnCycle(m, r.error.name)
    ensures r.Ok? ==> inStack' == inStack && visited' == Elements(order') && visited' !! inStack'
    ensures r.Ok? ==> DependencyOrder(m, order') && Extends(m, [name], order, order')
    decreases Names(m) - inStack
  {
    hide Names, DependencyOrder, OnCycle, Reaches, IsStack, DependsOn, DependenciesOf;
    if name in inStack {
      MetAgainIsCycle(m, stack, inStack, name);
      return Err(CyclicDependency(name)), visited, inStack, order;
    }
    if name in visited {
      AlreadyPlaced(m, name, order);
      return Ok(()), visited, inStack, order;
    }
    Pushed(m, stack, inStack, name);
    visited', inStack', order' := visited, inStack + {name}, order;
    var dependencies := DependenciesOf(m, name);
    NothingExtends(m, order);
    for i := 0 to |dependencies|
      invariant inStack' == inStack + {name} && visited' == Elements(order') && visited' !! inStack'
      invariant DependencyOrder(m, order') && Extends(m, dependencies[..i], order, order')
    {
      DependencyIsNamed(m, name, i);
      ghost var before := order';
      r, visited', inStack', order' := VisitRole(dependencies[i], m, visited', inStack', order', stack + [name]);
      if r.Err? {
        return;
      }
      ExtendsChain(m, dependencies[..i], dependencies[i], order, before, order');
      assert dependencies[..i + 1] == dependencies[..i] + [dependencies[i]];
    }
    assert dependencies[..|dependencies|] == dependencies;
    assert name !in order' by { assert name in order' ==> name in Elements(order'); }
    Placed(m, name, order, order');
    assert Elements(order' + [name]) == Elements(order') + {name};
    inStack', visited', order' := inStack' - {name}, visited' + {name}, order' + [name];
    assert inStack' == inStack;
    r := Ok(());
  }

  lemma AlreadyPlaced(m: RoleMap, name: string, order: seq<string>)
    requires name in Elements(order)
    ensures Extends(m, [name], order, order)
  {
  }

  function RoleNames(roles: seq<Role>): (names: seq<string>)
    ensures |names| == |roles| && forall i :: 0 <= i < |roles| ==> names[i] == roles[i].name
  {
    seq(|roles|, i requires 0 <= i < |roles| => roles[i].name)
  }

  /** `n` is a role, or a dependency of one, directly or not. */
  ghost predicate ReachedFromRole(roles: seq<Role>, n: string) {
    exists i :: 0 <= i < |roles| && Reaches(DependsOn(MapOf(roles)), roles[i].name, n)
  }

  /** Orders the roles: on success every role and every name reachable from one occurs
      exactly once, after all its dependencies; failure names a role on a cycle, and
      happens exactly when the dependencies have a cycle. */
  method ResolveDependencyOrder(roles: seq<Role>) returns (r: Result<seq<string>, RoleError>)
    ensures r.Ok? ==> DependencyOrder(MapOf(roles), r.value)
    ensures r.Ok? ==> forall n :: n in r.value <==> ReachedFromRole(roles, n)
    ensures r.Err? ==> OnCycle(MapOf(roles), r.error.name)
    ensures r.Err? <==> exists n :: OnCycle(MapOf(roles), n)
    ensures r.Ok? ==> forall i :: 0 <= i < |roles| && IsLast(roles, i) ==> PlacedAfterAll(roles[i], r.value)
  {
    hide Names, DependencyOrder, OnCycle, Reaches, IsStack, DependsOn, DependenciesOf, Extends, ReachedFromRole,
         PlacedAfterAll, IsLast;
    var m := MapOf(roles);
    var order: seq<string> := [];
    var visited: set<string> := {};
    var inStack: set<string> := {};
    var names := RoleNames(roles);
    NothingPlaced(m);
    NothingExtends(m, []);
    for i := 0 to |roles|
      invariant inStack == {} && visited == Elements(order)
      invariant DependencyOrder(m, order) && Extends(m, names[..i], [], order)
    {
      ghost var before := order;
      if roles[i].name !in visited {
        RoleIsNamed(m, roles[i].name);
        var one;
        one, visited, inStack, order := VisitRole(roles[i].name, m, visited, inStack, order, []);
        if one.Err? {
          return Err(one.error);
        }
      } else {
        AlreadyPlaced(m, roles[i].name, order);
      }
      ExtendsChain(m, names[..i], names[i], [], before, order);
      assert names[..i + 1] == names[..i] + [names[i]];
    }
    assert names[..|names|] == names;
    OrderIsComplete(roles, m, names, order);
    forall i | 0 <= i < |roles| && IsLast(roles, i) ensures PlacedAfterAll(roles[i], order) {
      RoleIsPlaced(roles, order, i);
    }
    r := Ok(order);
  }

  /** The role is in the order, once, with everything it depends on before it. */
  ghost predicate PlacedAfterAll(role: Role, order: seq<string>) {
    exists k :: 0 <= k < |order| && order[k] == role.name && role.name !in order[..k] && role.name !in order[k + 1..]
                && forall d :: d in role.dependencies ==> d in order[..k]
  }

  lemma RoleIsPlaced(roles: seq<Role>, order: seq<string>, i: nat)
    requires i < |roles| && IsLast(roles, i) && DependencyOrder(MapOf(roles), order)
    requires forall n :: n in order <==> ReachedFromRole(roles, n)
    ensures PlacedAfterAll(roles[i], order)
  {
    hide IsLast;
    var role := roles[i];
    LastRoleCounts(roles, i);
    ReachesItself(DependsOn(MapOf(roles)), role.name);
    assert ReachedFromRole(roles, role.name);
    var k :| 0 <= k < |order| && order[k] == role.name;
    forall d | d in role.dependencies ensures d in order[..k] {
      assert DependsOn(MapOf(roles))(order[k], d);
    }
  }

  lemma NothingPlaced(m: RoleMap)
    ensures DependencyOrder(m, []) && IsStack(m, [], {})
  {
  }

  lemma RoleIsNamed(m: RoleMap, name: string)
    requires name in m
    ensures name in Names(m)
  {
  }

  /** A complete dependency order holds exactly what is reachable, and excludes cycles. */
  lemma OrderIsComplete(roles: seq<Role>, m: RoleMap, names: seq<string>, order: seq<string>)
    requires m == MapOf(roles) && names == RoleNames(roles)
    requires DependencyOrder(m, order) && Extends(m, names, [], order)
    ensures forall n :: n in order <==> ReachedFromRole(roles, n)
    ensures forall n :: !OnCycle(m, n)
  {
    hide ReachedFromRole, OnCycle, Reaches, Extends, DependencyOrder;
    forall n ensures n in order <==> ReachedFromRole(roles, n) {
      OrderIsReached(roles, m, names, order, n);
    }
    forall n ensures !OnCycle(m, n) {
      OrderExcludesCycle(roles, m, names, order, n);
    }
  }

  lemma OrderIsReached(roles: seq<Role>, m: RoleMap, names: seq<string>, order: seq<string>, n: string)
    requires m == MapOf(roles) && names == RoleNames(roles)
    requires DependencyOrder(m, order) && Extends(m, names, [], order)
    ensures n in order <==> ReachedFromRole(roles, n)
  {
    hide ReachedFromRole, DependencyOrder, Extends;
    if n in order {
      ListedIsReached(roles, m, names, order, n);
    }
    if ReachedFromRole(roles, n) {
      ReachedIsListed(roles, m, names, order, n);
    }
  }

  lemma ListedIsReached(roles: seq<Role>, m: RoleMap, names: seq<string>, order: seq<string>, n: string)
    requires m == MapOf(roles) && names == RoleNames(roles) && Extends(m, names, [], order) && n in order
    ensures ReachedFromRole(roles, n)
  {
    hide Reaches;
    var s :| s in names && Reaches(DependsOn(m), s, n);
    var i :| 0 <= i < |names| && names[i] == s;
    assert Reaches(DependsOn(m), roles[i].name, n);
  }

  lemma ReachedIsListed(roles: seq<Role>, m: RoleMap, names: seq<string>, order: seq<string>, n: string)
    requires m == MapOf(roles) && names == RoleNames(roles) && ReachedFromRole(roles, n)
    requires DependencyOrder(m, order) && Extends(m, names, [], order)
    ensures n in order
  {
    hide Reaches, DependencyOrder;
    OrderIsClosed(m, order);
    var i :| 0 <= i < |roles| && Reaches(DependsOn(m), roles[i].name, n);
    assert names[i] in names && names[i] in Elements(order);
    ClosedHoldsReachable(DependsOn(m), Elements(order), names[i]);
    assert n in Elements(order);
  }

  lemma OrderIsClosed(m: RoleMap, order: seq<string>)
    requires DependencyOrder(m, order)
    ensures ClosedUnder(DependsOn(m), Elements(order))
  {
    forall u, v | u in Elements(order) && DependsOn(m)(u, v) ensures v in Elements(order) {
      var i :| 0 <= i < |order| && order[i] == u;
      assert v in order[..i];
    }
  }

  /** Along a path the position in the order falls. */
  lemma {:induction false} PathDescends(m: RoleMap, order: seq<string>, p: seq<string>, i: nat)
    requires DependencyOrder(m, order) && Path(DependsOn(m), p) && |p| > 1
    requires i < |order| && order[i] == p[0]
    ensures exists j :: 0 <= j < i && order[j] == p[|p| - 1]
  {
    assert DependsOn(m)(p[0], p[1]);
    assert p[1] in order[..i];
    var j :| 0 <= j < i && order[j] == p[1];
    if |p| > 2 {
      forall k | 0 <= k < |p[1..]| - 1 ensures DependsOn(m)(p[1..][k], p[1..][k + 1]) {
        assert DependsOn(m)(p[k + 1], p[k + 1 + 1]);
      }
      PathDescends(m, order, p[1..], j);
    }
  }

  lemma OrderExcludesCycle(roles: seq<Role>, m: RoleMap, names: seq<string>, order: seq<string>, n: string)
    requires m == MapOf(roles) && names == RoleNames(roles)
    requires DependencyOrder(m, order) && Extends(m, names, [], order)
    ensures !OnCycle(m, n)
  {
    if OnCycle(m, n) {
      var p :| PathBetween(DependsOn(m), p, n, n) && |p| > 1;
      assert DependsOn(m)(p[0], p[1]);
      CycleNameIsRole(roles, m, n);
      var k :| 0 <= k < |roles| && roles[k].name == n;
      assert names[k] in names && n in order;
      var i :| 0 <= i < |order| && order[i] == n;
      PathDescends(m, order, p, i);
    }
  }

  lemma CycleNameIsRole(roles: seq<Role>, m: RoleMap, n: string)
    requires m == MapOf(roles) && DependenciesOf(m, n) != []
    ensures exists k :: 0 <= k < |roles| && roles[k].name == n
  {
    assert m[n] in roles;
    var k :| 0 <= k < |roles| && roles[k] == m[n];
  }
}
