/**
 * The second half of `_topo_sort_plugins`: hard-cycle members first, then a
 * depth-first walk over hard and soft dependencies.
 */
module StartOrder {
  import opened Names
  import opened DependencyGraph

  /** What the walk reads: the loaded names in registry order, their dependencies, the cycle members. */
  datatype Plan = Plan(names: seq<Name>, hard: Graph, soft: Graph, cyclic: set<Name>) {
    ghost predicate Valid() {
      && Distinct(names)
      && hard.Keys == soft.Keys == Elements(names)
      && cyclic <= Elements(names)
    }

    /** Whether the walk follows a dependency: loaded, and not already placed as a cycle member. */
    predicate Follows(dep: Name) {
      dep in names && dep !in cyclic
    }

    /** All hard and soft edges between loaded plugins. */
    ghost function Edges(): Graph
      requires Valid()
    {
      map u | u in Elements(names) :: Keep(hard[u] + soft[u], Elements(names))
    }

    /** The edges the walk follows. */
    ghost function Walked(): Graph
      requires Valid()
    {
      map u | u in Elements(names) - cyclic :: Keep(hard[u] + soft[u], Elements(names) - cyclic)
    }
  }

  function Keep(s: seq<Name>, allowed: set<Name>): (r: seq<Name>)
    ensures forall x :: x in r <==> x in s && x in allowed
    ensures |r| <= |s|
  {
    if s == [] then []
    else if s[0] in allowed then [s[0]] + Keep(s[1..], allowed)
    else Keep(s[1..], allowed)
  }

  datatype Walk = Walk(visited: set<Name>, visiting: set<Name>, order: seq<Name>)

  ghost function Unseen(p: Plan, w: Walk): set<Name> {
    Elements(p.names) - w.visited - w.visiting
  }

  /** `visit(name)`. */
  ghost function Visit(p: Plan, w: Walk, name: Name): (r: Walk)
    requires p.Valid()
    ensures r.visiting == w.visiting && w.visited <= r.visited
    decreases Unseen(p, w), 0
  {
    if name !in Elements(p.names) || name in w.visited || name in w.visiting then w
    else
      var entered := w.(visiting := w.visiting + {name});
      var left := VisitAll(p, VisitAll(p, entered, p.hard[name]), p.soft[name]);
      Walk(left.visited + {name}, left.visiting - {name}, left.order + [name])
  }

  /** The loop over one dependency list inside `visit`. */
  ghost function VisitAll(p: Plan, w: Walk, deps: seq<Name>): (r: Walk)
    requires p.Valid()
    ensures r.visiting == w.visiting && w.visited <= r.visited
    decreases Unseen(p, w), |deps|
  {
    if deps == [] then w
    else
      var next := if p.Follows(deps[0]) then Visit(p, w, deps[0]) else w;
      VisitAll(p, next, deps[1..])
  }

  /** The loop `for name in names: visit(name)`. */
  ghost function VisitNames(p: Plan, w: Walk, todo: seq<Name>): (r: Walk)
    requires p.Valid()
    decreases |todo|
  {
    if todo == [] then w else VisitNames(p, Visit(p, w, todo[0]), todo[1..])
  }

  /** The cycle members, in registry order. */
  function CycleMembers(p: Plan): seq<Name> {
    Keep(p.names, p.cyclic)
  }

  ghost function Order(p: Plan): seq<Name>
    requires p.Valid()
  {
    VisitNames(p, Walk(p.cyclic, {}, CycleMembers(p)), p.names).order
  }

  /** `v` is placed somewhere before `u`. */
  ghost predicate Before(order: seq<Name>, v: Name, u: Name) {
    exists k :: 0 <= k < |order| && order[k] == u && v in order[..k]
  }

  ghost predicate Ordered(p: Plan, order: seq<Name>, u: Name, v: Name)
    requires p.Valid()
  {
    Before(order, v, u) || Reach(p.Walked(), v, u)
  }

  ghost predicate WalkInv(p: Plan, w: Walk)
    requires p.Valid()
  {
    && Distinct(w.order) && Elements(w.order) == w.visited
    && CycleMembers(p) <= w.order
    && w.visited <= Elements(p.names)
    && w.visiting <= Elements(p.names) - p.cyclic
    && w.visited !! w.visiting
    && p.cyclic <= w.visited
    && forall u, v :: u in w.visited && Edge(p.Walked(), u, v) ==> Ordered(p, w.order, u, v)
  }

  lemma BeforeExtends(a: seq<Name>, b: seq<Name>, v: Name, u: Name)
    requires Before(a, v, u) && a <= b
    ensures Before(b, v, u)
  {
    var k :| 0 <= k < |a| && a[k] == u && v in a[..k];
    assert b[k] == u && a[..k] == b[..k];
  }

  /** Each plugin still being visited reaches `name` along walked edges. */
  ghost predicate PathTo(p: Plan, w: Walk, name: Name)
    requires p.Valid()
  {
    forall r :: r in w.visiting ==> Reach(p.Walked(), r, name)
  }

  lemma {:induction false} VisitKeeps(p: Plan, w: Walk, name: Name)
    requires p.Valid() && WalkInv(p, w)
    requires name in Elements(p.names) && name !in p.cyclic ==> PathTo(p, w, name)
    ensures WalkInv(p, Visit(p, w, name))
    ensures w.order <= Visit(p, w, name).order
    ensures name in Elements(p.names) ==> name in Visit(p, w, name).visited + w.visiting
    decreases Unseen(p, w), 0, 0
  {
    if name !in Elements(p.names) || name in w.visited || name in w.visiting {
      return;
    }
    hide Reach, Edge;
    var entered := w.(visiting := w.visiting + {name});
    ReachSelf(p.Walked(), name);
    var mid := VisitAll(p, entered, p.hard[name]);
    VisitAllKeeps(p, entered, p.hard[name], name);
    VisitAllKeeps(p, mid, p.soft[name], name);
    var left := VisitAll(p, mid, p.soft[name]);
    LeaveKeeps(p, left, name);
  }

  lemma {:induction false} VisitAllKeeps(p: Plan, w: Walk, deps: seq<Name>, top: Name)
    requires p.Valid() && WalkInv(p, w) && top in w.visiting && PathTo(p, w, top)
    requires forall d :: d in deps ==> d in p.hard[top] || d in p.soft[top]
    ensures WalkInv(p, VisitAll(p, w, deps))
    ensures w.order <= VisitAll(p, w, deps).order
    ensures forall d :: d in deps && p.Follows(d) ==> d in VisitAll(p, w, deps).visited + w.visiting
    decreases Unseen(p, w), |deps|, 0
  {
    hide WalkInv, Visit, PathTo, Plan.Valid, Plan.Follows, Elements, Unseen;
    if deps != [] {
      var d := deps[0];
      var next := if p.Follows(d) then Visit(p, w, d) else w;
      if p.Follows(d) {
        FollowKeeps(p, w, d, top);
      }
      SamePath(p, w, next, top);
      VisitAllKeeps(p, next, deps[1..], top);
      assert forall e :: e in deps ==> e == d || e in deps[1..];
    }
  }

  lemma SamePath(p: Plan, w: Walk, next: Walk, top: Name)
    requires p.Valid() && PathTo(p, w, top) && next.visiting == w.visiting
    ensures PathTo(p, next, top)
  {
    hide Reach;
  }

  lemma {:induction false} FollowKeeps(p: Plan, w: Walk, d: Name, top: Name)
    requires p.Valid() && WalkInv(p, w) && top in w.visiting && PathTo(p, w, top) && p.Follows(d)
    requires d in p.hard[top] || d in p.soft[top]
    ensures WalkInv(p, Visit(p, w, d)) && w.order <= Visit(p, w, d).order
    ensures d in Visit(p, w, d).visited + w.visiting
    ensures Unseen(p, Visit(p, w, d)) <= Unseen(p, w)
    decreases Unseen(p, w), 0, 1
  {
    hide Reach, Edge, Visit;
    WalkedEdge(p, w, top, d);
    VisitKeeps(p, w, d);
  }

  lemma WalkedEdge(p: Plan, w: Walk, top: Name, d: Name)
    requires p.Valid() && PathTo(p, w, top) && top in Elements(p.names) - p.cyclic && p.Follows(d)
    requires d in p.hard[top] || d in p.soft[top]
    ensures Edge(p.Walked(), top, d) && PathTo(p, w, d)
  {
    assert d in p.hard[top] + p.soft[top];
    assert Edge(p.Walked(), top, d);
    ReachEdge(p.Walked(), top, d);
    hide Reach;
    forall r | r in w.visiting ensures Reach(p.Walked(), r, d) {
      ReachTransitive(p.Walked(), r, top, d);
    }
  }

  /** Leaving `name` places it after every walked dependency that cannot reach it. */
  lemma LeaveKeeps(p: Plan, w: Walk, name: Name)
    requires p.Valid() && WalkInv(p, w) && name in w.visiting && PathTo(p, w, name)
    requires forall d :: d in p.hard[name] && p.Follows(d) ==> d in w.visited + w.visiting
    requires forall d :: d in p.soft[name] && p.Follows(d) ==> d in w.visited + w.visiting
    ensures WalkInv(p, Walk(w.visited + {name}, w.visiting - {name}, w.order + [name]))
  {
    var r := Walk(w.visited + {name}, w.visiting - {name}, w.order + [name]);
    ElementsConcat(w.order, [name]);
    hide Reach;
    forall u, v | u in r.visited && Edge(p.Walked(), u, v) ensures Ordered(p, r.order, u, v) {
      if u == name {
        assert v in p.hard[name] + p.soft[name] && p.Follows(v);
        if v in w.visited {
          assert r.order[|w.order|] == name && r.order[..|w.order|] == w.order;
          assert v in Elements(w.order);
        }
      } else if Before(w.order, v, u) {
        BeforeExtends(w.order, r.order, v, u);
      }
    }
  }

  lemma {:induction false} VisitNamesKeeps(p: Plan, w: Walk, todo: seq<Name>)
    requires p.Valid() && WalkInv(p, w) && w.visiting == {}
    ensures WalkInv(p, VisitNames(p, w, todo)) && VisitNames(p, w, todo).visiting == {}
    ensures w.visited <= VisitNames(p, w, todo).visited && w.order <= VisitNames(p, w, todo).order
    ensures forall x :: x in todo && x in Elements(p.names) ==> x in VisitNames(p, w, todo).visited
    decreases |todo|
  {
    if todo != [] {
      VisitKeeps(p, w, todo[0]);
      hide Reach, Edge, Before;
      VisitNamesKeeps(p, Visit(p, w, todo[0]), todo[1..]);
      assert todo == [todo[0]] + todo[1..];
    }
  }

  lemma {:induction false} KeepDistinct(s: seq<Name>, allowed: set<Name>)
    requires Distinct(s)
    ensures Distinct(Keep(s, allowed))
  {
    if s != [] {
      KeepDistinct(s[1..], allowed);
    }
  }

  /**
   * The start order is a permutation of the loaded names that begins with the
   * hard-cycle members; outside hard cycles every hard or soft dependency is
   * placed first unless it leads back to its dependent (on walked edges, so on
   * hard and soft edges between plugins outside hard cycles).
   */
  lemma OrderCorrect(p: Plan)
    requires p.Valid()
    ensures Distinct(Order(p)) && Elements(Order(p)) == Elements(p.names)
    ensures CycleMembers(p) <= Order(p)
    ensures Elements(CycleMembers(p)) == p.cyclic
    ensures forall u, v :: u !in p.cyclic && Edge(p.Edges(), u, v) ==>
      Before(Order(p), v, u) || Reach(p.Walked(), v, u)
  {
    hide Reach, Edge, Before, CycleMembers, Distinct, VisitNames, Plan.Edges, Plan.Walked;
    StartInv(p);
    OrderInv(p);
    forall u, v | u !in p.cyclic && Edge(p.Edges(), u, v)
      ensures Before(Order(p), v, u) || Reach(p.Walked(), v, u)
    {
      OrderedEdge(p, u, v);
    }
  }

  lemma StartInv(p: Plan)
    requires p.Valid()
    ensures WalkInv(p, Walk(p.cyclic, {}, CycleMembers(p))) && Elements(CycleMembers(p)) == p.cyclic
  {
    hide Reach;
    KeepDistinct(p.names, p.cyclic);
    assert Elements(CycleMembers(p)) == p.cyclic;
  }

  lemma OrderInv(p: Plan)
    requires p.Valid() && WalkInv(p, Walk(p.cyclic, {}, CycleMembers(p)))
    ensures WalkInv(p, Walk(Elements(p.names), {}, Order(p)))
  {
    var start := Walk(p.cyclic, {}, CycleMembers(p));
    VisitNamesKeeps(p, start, p.names);
    hide Reach, Edge, Before, CycleMembers, Distinct, VisitNames, Ordered;
    var last := VisitNames(p, start, p.names);
    assert last.visited == Elements(p.names) by {
      assert forall x :: x in Elements(p.names) ==> x in p.names;
    }
    assert last == Walk(Elements(p.names), {}, Order(p));
  }

  lemma OrderedEdge(p: Plan, u: Name, v: Name)
    requires p.Valid() && u !in p.cyclic && Edge(p.Edges(), u, v)
    requires WalkInv(p, Walk(Elements(p.names), {}, Order(p)))
    requires Elements(CycleMembers(p)) == p.cyclic
    ensures Before(Order(p), v, u) || Reach(p.Walked(), v, u)
  {
    hide Reach, Order, CycleMembers, Before, Distinct;
    if v in p.cyclic {
      PrefixBefore(CycleMembers(p), Order(p), u, v);
    } else {
      assert Edge(p.Walked(), u, v);
    }
  }

  lemma PrefixBefore(part: seq<Name>, order: seq<Name>, u: Name, v: Name)
    requires part <= order && v in Elements(part) && u in Elements(order) && u !in Elements(part)
    ensures Before(order, v, u)
  {
    var k :| 0 <= k < |order| && order[k] == u;
    var i :| 0 <= i < |part| && part[i] == v;
    assert k >= |part| by {
      assert forall j :: 0 <= j < |part| ==> part[j] in Elements(part) && part[j] == order[j];
    }
    assert order[..k][i] == v;
  }

  // ---------------------------------------------------------------- every listing of the same plugins

  /** A finished plugin has its walked dependencies finished or being visited. */
  ghost predicate ClosedIn(p: Plan, w: Walk)
    requires p.Valid()
  {
    forall u, v :: u in w.visited && Edge(p.Walked(), u, v) ==> v in w.visited + w.visiting
  }

  lemma {:induction false} VisitClosed(p: Plan, w: Walk, name: Name)
    requires p.Valid() && ClosedIn(p, w)
    ensures ClosedIn(p, Visit(p, w, name))
    ensures name in Elements(p.names) ==> name in Visit(p, w, name).visited + w.visiting
    decreases Unseen(p, w), 0
  {
    hide Edge;
    if name in Elements(p.names) && name !in w.visited && name !in w.visiting {
      var entered := w.(visiting := w.visiting + {name});
      assert ClosedIn(p, entered);
      var mid := VisitAll(p, entered, p.hard[name]);
      VisitAllClosed(p, entered, p.hard[name]);
      VisitAllClosed(p, mid, p.soft[name]);
      LeaveClosed(p, VisitAll(p, mid, p.soft[name]), name);
    }
  }

  lemma LeaveClosed(p: Plan, w: Walk, name: Name)
    requires p.Valid() && ClosedIn(p, w) && name in w.visiting && name in Elements(p.names)
    requires forall d :: d in p.hard[name] && p.Follows(d) ==> d in w.visited + w.visiting
    requires forall d :: d in p.soft[name] && p.Follows(d) ==> d in w.visited + w.visiting
    ensures ClosedIn(p, Walk(w.visited + {name}, w.visiting - {name}, w.order + [name]))
  {
    var r := Walk(w.visited + {name}, w.visiting - {name}, w.order + [name]);
    forall u, v | u in r.visited && Edge(p.Walked(), u, v) ensures v in r.visited + r.visiting {
      if u == name {
        assert v in p.hard[name] + p.soft[name] && p.Follows(v);
      }
    }
  }

  lemma {:induction false} VisitAllClosed(p: Plan, w: Walk, deps: seq<Name>)
    requires p.Valid() && ClosedIn(p, w)
    ensures ClosedIn(p, VisitAll(p, w, deps))
    ensures forall d :: d in deps && p.Follows(d) ==> d in VisitAll(p, w, deps).visited + w.visiting
    decreases Unseen(p, w), |deps|
  {
    hide ClosedIn, Visit;
    if deps != [] {
      var d := deps[0];
      if p.Follows(d) {
        VisitClosed(p, w, d);
      }
      VisitAllClosed(p, if p.Follows(d) then Visit(p, w, d) else w, deps[1..]);
      assert deps == [d] + deps[1..];
    }
  }

  /** Visiting a plugin first places it after everything it can reach. */
  lemma FirstVisit(p: Plan, d: Name, m: Name)
    requires p.Valid() && d in Elements(p.names) - p.cyclic && Reach(p.Walked(), d, m)
    ensures var w := Visit(p, Walk(p.cyclic, {}, CycleMembers(p)), d);
      m in w.visited && w.order != [] && w.order[|w.order| - 1] == d
  {
    var start := Walk(p.cyclic, {}, CycleMembers(p));
    assert ClosedIn(p, start);
    VisitClosed(p, start, d);
    var w := Visit(p, start, d);
    hide Reach, Visit, Edge;
    ClosedSet(p.Walked(), d, m, w.visited);
  }

  /** Listed first, a plugin is placed after everything it can reach. */
  lemma ListedFirst(p: Plan, d: Name, m: Name)
    requires p.Valid() && p.names != [] && p.names[0] == d && d !in p.cyclic && Reach(p.Walked(), d, m)
    ensures !Before(Order(p), d, m)
  {
    var start := Walk(p.cyclic, {}, CycleMembers(p));
    assert d in Elements(p.names);
    FirstVisit(p, d, m);
    StartInv(p);
    OrderCorrect(p);
    hide Reach, Edge, CycleMembers, Before, Plan.Walked, Visit;
    VisitKeeps(p, start, d);
    var w := Visit(p, start, d);
    VisitNamesKeeps(p, w, p.names[1..]);
    assert w.order <= Order(p);
    hide Order, WalkInv;
    assert m in Elements(w.order);
    LastIsLast(w.order, Order(p), d, m);
  }

  lemma LastIsLast(part: seq<Name>, order: seq<Name>, d: Name, m: Name)
    requires Distinct(order) && part <= order && part != [] && part[|part| - 1] == d && m in part
    ensures !Before(order, d, m)
  {
    var q := |part| - 1;
    var j :| 0 <= j < |part| && part[j] == m;
    assert order[j] == m && order[q] == d;
    forall k | 0 <= k < |order| && order[k] == m ensures d !in order[..k] {
      assert k == j;
      forall i | 0 <= i < k ensures order[..k][i] != d {
        assert i < q;
      }
    }
  }

  /** The same plugins in another order. */
  ghost predicate Listing(p: Plan, names: seq<Name>) {
    Distinct(names) && Elements(names) == Elements(p.names)
  }

  lemma ListingPlan(p: Plan, names: seq<Name>)
    requires p.Valid() && Listing(p, names)
    ensures p.(names := names).Valid() && p.(names := names).Walked() == p.Walked()
  {
  }

  lemma FrontListing(p: Plan, d: Name) returns (names: seq<Name>)
    requires p.Valid() && d in Elements(p.names)
    ensures Listing(p, names) && names != [] && names[0] == d
  {
    var rest := Keep(p.names, Elements(p.names) - {d});
    KeepDistinct(p.names, Elements(p.names) - {d});
    names := [d] + rest;
    assert forall i :: 0 <= i < |rest| ==> rest[i] in rest;
    assert forall x :: x in names <==> x == d || x in rest;
  }

  /**
   * A dependency outside hard cycles is placed first under every listing of the
   * plugins exactly when nothing leads back from it to its dependent.
   */
  lemma OrderedInEveryListing(p: Plan, m: Name, d: Name)
    requires p.Valid() && Edge(p.Walked(), m, d)
    ensures (forall names :: Listing(p, names) ==>
               p.(names := names).Valid() && Before(Order(p.(names := names)), d, m)) <==>
            !Reach(p.Walked(), d, m)
  {
    assert m in Elements(p.names) - p.cyclic && d in Elements(p.names) - p.cyclic;
    if Reach(p.Walked(), d, m) {
      var names := FrontListing(p, d);
      ListingPlan(p, names);
      ListedFirst(p.(names := names), d, m);
    } else {
      forall names | Listing(p, names)
        ensures p.(names := names).Valid() && Before(Order(p.(names := names)), d, m)
      {
        var q := p.(names := names);
        ListingPlan(p, names);
        WalkedIsEdge(q, m, d);
        OrderCorrect(q);
      }
    }
  }

  lemma WalkedIsEdge(p: Plan, m: Name, d: Name)
    requires p.Valid() && Edge(p.Walked(), m, d)
    ensures m !in p.cyclic && Edge(p.Edges(), m, d)
  {
  }

  /**
   * A soft cycle can put a plugin before its own hard dependency: `b`, listed
   * first, soft-depends on `a`, which hard-depends on `b`.
   */
  lemma SoftCycleInverts(p: Plan, a: Name, b: Name)
    requires a != b && p.names == [b, a] && p.cyclic == {}
    requires p.hard == map[b := [], a := [b]] && p.soft == map[b := [a], a := []]
    ensures p.Valid() && Order(p) == [a, b] && !Before(Order(p), b, a)
  {
    assert Elements(p.names) == {a, b};
    assert CycleMembers(p) == [] by {
      assert Elements(CycleMembers(p)) == {};
      ElementsEmpty(CycleMembers(p));
    }
    assert p.Valid();
    hide Distinct, CycleMembers;
    var start, leftB := Walk({}, {}, []), Walk({a, b}, {}, [a, b]);
    SoftCycleOuter(p, a, b);
    assert [b, a][1..] == [a] && [a][1..] == [];
    assert Visit(p, leftB, a) == leftB;
    assert VisitNames(p, start, [b, a]) == VisitNames(p, leftB, [a]) == VisitNames(p, leftB, []) == leftB;
  }

  /** While `b` is being visited, its soft dependency `a` is placed without it. */
  lemma SoftCycleInner(p: Plan, a: Name, b: Name)
    requires a != b && p.names == [b, a] && p.cyclic == {} && p.Valid()
    requires p.hard[a] == [b] && p.soft[a] == []
    ensures Visit(p, Walk({}, {b}, []), a) == Walk({a}, {b}, [a])
  {
    assert Elements(p.names) == {a, b};
    hide Distinct;
    var inB, inA := Walk({}, {b}, []), Walk({}, {b, a}, []);
    assert inB.(visiting := inB.visiting + {a}) == inA && inA.visiting - {a} == {b};
    assert Visit(p, inA, b) == inA && [b][1..] == [];
    assert VisitAll(p, inA, [b]) == VisitAll(p, inA, []) == inA;
  }

  lemma SoftCycleOuter(p: Plan, a: Name, b: Name)
    requires a != b && p.names == [b, a] && p.cyclic == {} && p.Valid()
    requires p.hard == map[b := [], a := [b]] && p.soft == map[b := [a], a := []]
    ensures Visit(p, Walk({}, {}, []), b) == Walk({a, b}, {}, [a, b])
  {
    SoftCycleInner(p, a, b);
    assert Elements(p.names) == {a, b};
    hide Distinct;
    var start, inB, leftA := Walk({}, {}, []), Walk({}, {b}, []), Walk({a}, {b}, [a]);
    assert start.(visiting := start.visiting + {b}) == inB && [a][1..] == [];
    assert VisitAll(p, inB, [a]) == VisitAll(p, leftA, []) == leftA;
  }

  /** Dependencies that are already placed are passed over. */
  lemma {:induction false} VisitAllDone(p: Plan, w: Walk, deps: seq<Name>)
    requires p.Valid() && forall d :: d in deps && p.Follows(d) ==> d in w.visited
    ensures VisitAll(p, w, deps) == w
    decreases |deps|
  {
    hide Plan.Valid, Plan.Follows;
    if deps != [] {
      assert deps == [deps[0]] + deps[1..];
      VisitAllDone(p, w, deps[1..]);
    }
  }

  /** No walked dependency is listed after its dependent. */
  ghost predicate Respects(p: Plan)
    requires p.Valid()
  {
    forall i, v :: 0 <= i < |p.names| && Edge(p.Walked(), p.names[i], v) ==> v in p.names[..i]
  }

  lemma VisitInTurn(p: Plan, w: Walk, i: nat)
    requires p.Valid() && Respects(p) && i < |p.names|
    requires w.visiting == {} && w.visited == p.cyclic + Elements(p.names[..i])
    ensures Visit(p, w, p.names[i]) ==
      if p.names[i] in p.cyclic then w else Walk(w.visited + {p.names[i]}, {}, w.order + [p.names[i]])
  {
    var name := p.names[i];
    assert name in Elements(p.names);
    if name !in p.cyclic {
      assert name !in w.visited;
      var entered := w.(visiting := w.visiting + {name});
      forall d | d in p.hard[name] + p.soft[name] && p.Follows(d) ensures d in entered.visited {
        assert Edge(p.Walked(), name, d);
      }
      VisitAllDone(p, entered, p.hard[name]);
      VisitAllDone(p, entered, p.soft[name]);
    }
  }

  lemma TurnTaken(p: Plan, w: Walk, i: nat)
    requires p.Valid() && Respects(p) && i < |p.names|
    requires w.visiting == {} && w.visited == p.cyclic + Elements(p.names[..i])
    ensures var next := Visit(p, w, p.names[i]);
      && next.visiting == {} && next.visited == p.cyclic + Elements(p.names[..i + 1])
      && next.order == w.order + Keep([p.names[i]], Elements(p.names) - p.cyclic)
  {
    hide Respects, Visit, Keep, Elements, Plan.Valid;
    VisitInTurn(p, w, i);
    assert p.names[..i + 1] == p.names[..i] + [p.names[i]];
    ElementsAppend(p.names[..i], p.names[i]);
    KeepOne(p, i);
  }

  lemma KeepOne(p: Plan, i: nat)
    requires p.Valid() && i < |p.names|
    ensures Keep([p.names[i]], Elements(p.names) - p.cyclic) == if p.names[i] in p.cyclic then [] else [p.names[i]]
  {
    assert [p.names[i]][1..] == [] && p.names[i] in Elements(p.names);
  }

  lemma {:induction false} VisitNamesInTurn(p: Plan, w: Walk, i: nat)
    requires p.Valid() && Respects(p) && i <= |p.names|
    requires w.visiting == {} && w.visited == p.cyclic + Elements(p.names[..i])
    ensures VisitNames(p, w, p.names[i..]).order == w.order + Keep(p.names[i..], Elements(p.names) - p.cyclic)
    decreases |p.names| - i
  {
    hide Respects, Visit, VisitNames, Keep, Plan.Valid, Elements;
    var rest := Elements(p.names) - p.cyclic;
    NamesStep(p, w, p.names[i..], rest);
    if i < |p.names| {
      TurnTaken(p, w, i);
      VisitNamesInTurn(p, Visit(p, w, p.names[i]), i + 1);
      assert p.names[i..][0] == p.names[i] && p.names[i..][1..] == p.names[i + 1..];
    }
  }

  lemma NamesStep(p: Plan, w: Walk, todo: seq<Name>, rest: set<Name>)
    requires p.Valid()
    ensures todo == [] ==> VisitNames(p, w, todo) == w && w.order + Keep(todo, rest) == w.order
    ensures todo != [] ==> VisitNames(p, w, todo) == VisitNames(p, Visit(p, w, todo[0]), todo[1..])
    ensures todo != [] ==> Keep(todo, rest) == Keep([todo[0]], rest) + Keep(todo[1..], rest)
  {
    hide Visit, Plan.Valid;
    if todo != [] {
      assert todo == [todo[0]] + todo[1..];
      KeepConcat([todo[0]], todo[1..], rest);
    }
  }

  /** A listing that already respects the dependencies is kept: cycle members first, then the others as listed. */
  lemma ListingKept(p: Plan)
    requires p.Valid() && Respects(p)
    ensures Order(p) == CycleMembers(p) + Keep(p.names, Elements(p.names) - p.cyclic)
  {
    assert p.names[..0] == [] && p.names[0..] == p.names;
    VisitNamesInTurn(p, Walk(p.cyclic, {}, CycleMembers(p)), 0);
  }

  /** Of two dependencies without dependencies of their own, the hard one is placed before the soft one. */
  lemma HardBeforeSoft(p: Plan, c: Name, h: Name, s: Name)
    requires c != h && c != s && h != s && p.names == [c, s, h] && p.cyclic == {}
    requires p.hard == map[c := [h], h := [], s := []] && p.soft == map[c := [s], h := [], s := []]
    ensures p.Valid() && Order(p) == [h, s, c]
  {
    assert Elements(p.names) == {c, h, s};
    assert CycleMembers(p) == [] by {
      assert Elements(CycleMembers(p)) == {};
      ElementsEmpty(CycleMembers(p));
    }
    assert p.Valid();
    HardThenSoft(p, c, h, s);
    hide Distinct, CycleMembers;
    var start, last := Walk({}, {}, []), Walk({c, h, s}, {}, [h, s, c]);
    assert [c, s, h][1..] == [s, h] && [s, h][1..] == [h] && [h][1..] == [];
    hide Plan.Valid;
    assert Visit(p, last, s) == last && Visit(p, last, h) == last;
    assert VisitNames(p, last, [s, h]) == VisitNames(p, last, [h]) == VisitNames(p, last, []) == last;
    assert VisitNames(p, start, [c, s, h]) == VisitNames(p, last, [s, h]);
  }

  lemma HardThenSoft(p: Plan, c: Name, h: Name, s: Name)
    requires c != h && c != s && h != s && p.names == [c, s, h] && p.cyclic == {} && p.Valid()
    requires p.hard == map[c := [h], h := [], s := []] && p.soft == map[c := [s], h := [], s := []]
    ensures Visit(p, Walk({}, {}, []), c) == Walk({c, h, s}, {}, [h, s, c])
  {
    assert Elements(p.names) == {c, h, s};
    hide Distinct;
    var start, entered := Walk({}, {}, []), Walk({}, {c}, []);
    var afterH, afterS := Walk({h}, {c}, [h]), Walk({h, s}, {c}, [h, s]);
    LeafVisit(p, entered, h);
    LeafVisit(p, afterH, s);
    assert entered.visited + {h} == {h} && afterH.visited + {s} == {h, s};
    assert [h][1..] == [] && [s][1..] == [];
    assert VisitAll(p, entered, [h]) == VisitAll(p, afterH, []) == afterH;
    assert VisitAll(p, afterH, [s]) == VisitAll(p, afterS, []) == afterS;
    assert start.(visiting := start.visiting + {c}) == entered;
    assert afterS.visited + {c} == {c, h, s} && afterS.visiting - {c} == {};
  }

  lemma LeafVisit(p: Plan, w: Walk, name: Name)
    requires p.Valid() && name in Elements(p.names) && name !in w.visited && name !in w.visiting
    requires p.hard[name] == [] && p.soft[name] == []
    ensures Visit(p, w, name) == Walk(w.visited + {name}, w.visiting, w.order + [name])
  {
    hide Distinct;
    assert w.visiting + {name} - {name} == w.visiting;
  }

  lemma {:induction false} KeepConcat(s: seq<Name>, t: seq<Name>, allowed: set<Name>)
    ensures Keep(s + t, allowed) == Keep(s, allowed) + Keep(t, allowed)
  {
    if s == [] {
      assert s + t == t;
    } else {
      assert (s + t)[0] == s[0] && (s + t)[1..] == s[1..] + t;
      KeepConcat(s[1..], t, allowed);
    }
  }

  lemma KeepSnoc(s: seq<Name>, allowed: set<Name>, i: nat)
    requires i < |s|
    ensures Keep(s[..i + 1], allowed) ==
            if s[i] in allowed then Keep(s[..i], allowed) + [s[i]] else Keep(s[..i], allowed)
  {
    assert s[..i + 1] == s[..i] + [s[i]] && [s[i]][1..] == [];
    KeepConcat(s[..i], [s[i]], allowed);
  }

  lemma CycleMembersElements(p: Plan)
    requires p.Valid()
    ensures Elements(CycleMembers(p)) == p.cyclic && CycleMembers(p) == Keep(p.names, p.cyclic)
    ensures Elements<Name>([]) == {} && Keep([], p.cyclic) == []
  {
  }

  /** The closure variables of the walk, and the walk itself. */
  class Walker {
    const p: Plan
    var visited: set<Name>
    var visiting: set<Name>
    var order: seq<Name>

    ghost function View(): Walk
      reads this
    {
      Walk(visited, visiting, order)
    }

    constructor (p: Plan)
      ensures this.p == p && View() == Walk({}, {}, [])
    {
      this.p := p;
      visited, visiting, order := {}, {}, [];
    }

    method VisitName(name: Name)
      requires p.Valid()
      modifies this
      ensures View() == Visit(p, old(View()), name)
      decreases Unseen(p, View()), 0
    {
      if name !in p.names || name in visited {
        return;
      }
      if name in visiting {
        return;
      }
      visiting := visiting + {name};
      assert View() == old(View()).(visiting := old(visiting) + {name});
      VisitDeps(p.hard[name]);
      VisitDeps(p.soft[name]);
      visiting := visiting - {name};
      visited := visited + {name};
      order := order + [name];
    }

    method VisitDeps(deps: seq<Name>)
      requires p.Valid()
      modifies this
      ensures View() == VisitAll(p, old(View()), deps)
      decreases Unseen(p, View()), |deps|
    {
      var i := 0;
      while i < |deps|
        invariant i <= |deps|
        invariant Unseen(p, View()) <= Unseen(p, old(View()))
        invariant VisitAll(p, View(), deps[i..]) == VisitAll(p, old(View()), deps)
      {
        assert deps[i..][0] == deps[i] && deps[i..][1..] == deps[i + 1..];
        if p.Follows(deps[i]) {
          VisitName(deps[i]);
        }
        i := i + 1;
      }
    }

    /** Cycle members first, then every name in registry order. */
    method Run()
      requires p.Valid() && View() == Walk({}, {}, [])
      modifies this
      ensures order == Order(p)
    {
      PlaceCycleMembers();
      VisitEach();
    }

    method PlaceCycleMembers()
      requires p.Valid() && View() == Walk({}, {}, [])
      modifies this
      ensures View() == Walk(p.cyclic, {}, CycleMembers(p))
    {
      hide Distinct, Keep, Elements, CycleMembers, Plan.Valid;
      CycleMembersElements(p);
      var i := 0;
      assert p.names[..0] == [];
      while i < |p.names|
        invariant i <= |p.names| && visiting == {}
        invariant order == Keep(p.names[..i], p.cyclic) && visited == Elements(order)
      {
        KeepSnoc(p.names, p.cyclic, i);
        if p.names[i] in p.cyclic {
          visited := visited + {p.names[i]};
          ElementsAppend(order, p.names[i]);
          order := order + [p.names[i]];
        }
        i := i + 1;
      }
      assert p.names[..i] == p.names;
    }

    method VisitEach()
      requires p.Valid()
      modifies this
      ensures View() == VisitNames(p, old(View()), p.names)
    {
      hide Visit, Distinct, Elements;
      ghost var start := View();
      var i := 0;
      assert p.names[0..] == p.names;
      while i < |p.names|
        invariant i <= |p.names|
        invariant VisitNames(p, View(), p.names[i..]) == VisitNames(p, start, p.names)
      {
        assert p.names[i..][0] == p.names[i] && p.names[i..][1..] == p.names[i + 1..];
        VisitName(p.names[i]);
        i := i + 1;
      }
    }
  }

  /** The list `_topo_sort_plugins` returns. */
  method StartOrderOf(p: Plan) returns (order: seq<Name>)
    requires p.Valid()
    ensures order == Order(p)
    ensures Distinct(order) && Elements(order) == Elements(p.names)
    ensures CycleMembers(p) <= order
    ensures forall u, v :: u !in p.cyclic && Edge(p.Edges(), u, v) ==>
      Before(order, v, u) || Reach(p.Walked(), v, u)
  {
    var walker := new Walker(p);
    walker.Run();
    order := walker.order;
    OrderCorrect(p);
  }
}
