/**
 * The hard-dependency cycle search of `_topo_sort_plugins`: Tarjan's algorithm,
 * with the closure's nonlocal variables as fields.  `CycleMap` is exact: a name
 * is a key precisely when it lies on a hard cycle, and its value is its strongly
 * connected component in sorted order.
 */
module Tarjan {
  import opened Names
  import opened DependencyGraph
  import opened Prelude

  /** The variables of the search, as one value. */
  datatype Snapshot = Snapshot(
    index: nat,
    indices: map<Name, nat>,
    lowlinks: map<Name, nat>,
    stack: seq<Name>,
    onStack: set<Name>,
    cycles: map<Name, seq<Name>>)

  ghost function Num(s: Snapshot, x: Name): nat {
    if x in s.indices then s.indices[x] else 0
  }

  ghost function Low(s: Snapshot, x: Name): nat {
    if x in s.lowlinks then s.lowlinks[x] else 0
  }

  ghost predicate Shape(g: Graph, s: Snapshot) {
    && s.indices.Keys <= g.Keys
    && s.lowlinks.Keys == s.indices.Keys
    && s.onStack == Elements(s.stack)
    && s.onStack <= s.indices.Keys
    && (forall x :: x in s.indices ==> Num(s, x) < s.index)
    && (forall i, j :: 0 <= i < j < |s.stack| ==> Num(s, s.stack[i]) < Num(s, s.stack[j]))
  }

  /** A finished name has only visited dependencies; `gray` names are still being visited. */
  ghost predicate NoBlackToWhite(g: Graph, s: Snapshot, gray: set<Name>) {
    forall x, y :: x in s.indices && x !in gray && Edge(g, x, y) ==> y in s.indices
  }

  ghost predicate GrayReaches(g: Graph, s: Snapshot, gray: set<Name>) {
    forall x, y :: x in gray && y in s.onStack && Num(s, x) <= Num(s, y) ==> Reach(g, x, y)
  }

  ghost predicate HasAnchor(g: Graph, s: Snapshot, gray: set<Name>, y: Name) {
    exists x :: x in gray && Num(s, x) <= Num(s, y) && Reach(g, y, x)
  }

  ghost predicate Anchored(g: Graph, s: Snapshot, gray: set<Name>) {
    forall y :: y in s.onStack ==> HasAnchor(g, s, gray, y)
  }

  /** Visited and off the stack: its component has been emitted. */
  ghost predicate Done(s: Snapshot, x: Name) {
    x in s.indices && x !in s.onStack
  }

  ghost predicate DoneClosed(g: Graph, s: Snapshot) {
    forall x, y :: Done(s, x) && Edge(g, x, y) ==> Done(s, y)
  }

  /** The members are exactly the strongly connected component of `x`, sorted. */
  ghost predicate IsComponent(g: Graph, members: seq<Name>, x: Name) {
    && Ascending(members)
    && forall y :: y in members <==> SameComponent(g, x, y)
  }

  ghost predicate CyclesExact(g: Graph, s: Snapshot) {
    && (forall x :: x in s.cycles <==> Done(s, x) && OnCycle(g, x))
    && (forall x :: x in s.cycles ==> IsComponent(g, s.cycles[x], x))
  }

  ghost predicate Inv(g: Graph, s: Snapshot, gray: set<Name>) {
    && Shape(g, s)
    && gray <= s.onStack
    && NoBlackToWhite(g, s, gray)
    && GrayReaches(g, s, gray)
    && Anchored(g, s, gray)
    && DoneClosed(g, s)
    && CyclesExact(g, s)
  }

  /** What a call may do to the state it started in. */
  ghost predicate Extends(s: Snapshot, t: Snapshot) {
    && s.stack <= t.stack
    && s.index <= t.index
    && (forall x :: x in s.indices ==> x in t.indices && Num(t, x) == Num(s, x))
    && (forall x :: x in s.lowlinks ==> x in t.lowlinks && Low(t, x) == Low(s, x))
    && (forall x :: x in t.indices && x !in s.indices ==> s.index <= Num(t, x))
    && (forall x :: x in Elements(t.stack[|s.stack|..]) ==> x !in s.indices)
  }

  /** The lowlink is the number of a stacked name that `x` reaches. */
  ghost predicate LowWitness(g: Graph, s: Snapshot, x: Name) {
    exists y :: y in s.onStack && Num(s, y) == Low(s, x) && Reach(g, x, y)
  }

  /** No edge from the newly stacked names leads below the bound in the old stack. */
  ghost predicate LowBound(g: Graph, s: Snapshot, above: set<Name>, below: set<Name>, bound: nat) {
    forall u, v :: u in above && Edge(g, u, v) && v in below ==> bound <= Num(s, v)
  }

  /** `strong_connect(x)` took the search from `s` to `t`. */
  ghost predicate Connected(g: Graph, s: Snapshot, t: Snapshot, x: Name) {
    && Extends(s, t)
    && x in t.indices && Num(t, x) == s.index
    && Low(t, x) <= Num(t, x)
    && (x in t.onStack ==> LowWitness(g, t, x))
    && (x !in t.onStack ==> t.stack == s.stack && Low(t, x) == Num(t, x))
    && LowBound(g, t, Elements(t.stack[|s.stack|..]), s.onStack, Low(t, x))
  }

  ghost predicate Processed(g: Graph, s: Snapshot, t: Snapshot, x: Name, n: nat)
    requires x in g && n <= |g[x]|
  {
    forall j :: 0 <= j < n ==>
      g[x][j] in t.indices && (g[x][j] in s.onStack ==> Low(t, x) <= Num(t, g[x][j]))
  }

  /** Inside `strong_connect(x)`, entered in `s`: the first `n` dependencies are processed. */
  ghost predicate Visiting(g: Graph, s: Snapshot, t: Snapshot, x: Name, n: nat) {
    && x in g && n <= |g[x]|
    && Extends(s, t)
    && s.stack + [x] <= t.stack
    && x in t.indices && Num(t, x) == s.index
    && Low(t, x) <= Num(t, x)
    && LowWitness(g, t, x)
    && LowBound(g, t, Elements(t.stack[|s.stack| + 1..]), s.onStack, Low(t, x))
    && Processed(g, s, t, x, n)
  }

  function Pushed(s: Snapshot, x: Name): Snapshot {
    s.(index := s.index + 1,
       indices := s.indices[x := s.index],
       lowlinks := s.lowlinks[x := s.index],
       stack := s.stack + [x],
       onStack := s.onStack + {x})
  }

  /** Steps that emit no component keep what is known of the emitted ones. */
  lemma DoneFrame(g: Graph, s: Snapshot, t: Snapshot)
    requires CyclesExact(g, s) && DoneClosed(g, s)
    requires s.cycles == t.cycles && forall x :: Done(s, x) <==> Done(t, x)
    ensures CyclesExact(g, t) && DoneClosed(g, t)
  {
    hide Done, OnCycle, IsComponent, Edge;
  }

  lemma PushShape(g: Graph, s: Snapshot, x: Name)
    requires Shape(g, s) && x in g && x !in s.indices
    ensures Shape(g, Pushed(s, x)) && Extends(s, Pushed(s, x))
    ensures forall y :: y in s.indices ==> Num(Pushed(s, x), y) == Num(s, y)
    ensures forall y :: Done(s, y) <==> Done(Pushed(s, x), y)
  {
    ElementsConcat(s.stack, [x]);
    assert Pushed(s, x).stack[|s.stack|..] == [x];
  }

  lemma PushVisiting(g: Graph, s: Snapshot, x: Name)
    requires Shape(g, s) && x in g && x !in s.indices
    ensures Visiting(g, s, Pushed(s, x), x, 0)
  {
    var t := Pushed(s, x);
    PushShape(g, s, x);
    hide Reach, Shape, Extends, Edge;
    ReachSelf(g, x);
    assert x in t.onStack && Num(t, x) == Low(t, x);
    assert t.stack[|s.stack| + 1..] == [];
    assert s.stack + [x] <= t.stack;
  }

  lemma PushGray(g: Graph, s: Snapshot, gray: set<Name>, x: Name)
    requires Shape(g, s) && x !in s.indices
    requires GrayReaches(g, s, gray) && gray <= s.onStack
    requires forall r :: r in gray ==> Reach(g, r, x)
    ensures GrayReaches(g, Pushed(s, x), gray + {x})
  {
    var t := Pushed(s, x);
    PushFacts(g, s);
    hide Reach, Shape;
    ReachSelf(g, x);
    forall r, y | r in gray + {x} && y in t.onStack && Num(t, r) <= Num(t, y)
      ensures Reach(g, r, y)
    {
      if y != x {
        assert r != x;
      }
    }
  }

  lemma PushNumbers(s: Snapshot, x: Name)
    requires x !in s.indices
    ensures forall y :: y in s.indices ==> Num(Pushed(s, x), y) == Num(s, y)
  {
  }

  lemma SelfAnchor(g: Graph, s: Snapshot, gray: set<Name>, x: Name)
    requires x in gray
    ensures HasAnchor(g, s, gray, x)
  {
    hide Reach, Num;
    ReachSelf(g, x);
  }

  lemma AnchorKept(g: Graph, s: Snapshot, t: Snapshot, gray: set<Name>, x: Name, y: Name)
    requires HasAnchor(g, s, gray, y) && y in s.indices && gray <= s.indices.Keys
    requires forall z :: z in s.indices ==> Num(t, z) == Num(s, z)
    ensures HasAnchor(g, t, gray + {x}, y)
  {
    hide Reach, Num;
    var r :| r in gray && Num(s, r) <= Num(s, y) && Reach(g, y, r);
    assert r in gray + {x} && Num(t, r) <= Num(t, y);
  }

  lemma PushAnchored(g: Graph, s: Snapshot, gray: set<Name>, x: Name)
    requires Shape(g, s) && x !in s.indices
    requires Anchored(g, s, gray) && gray <= s.onStack
    ensures Anchored(g, Pushed(s, x), gray + {x})
  {
    hide Reach, Shape, Num, HasAnchor;
    var t := Pushed(s, x);
    PushFacts(g, s);
    PushNumbers(s, x);
    SelfAnchor(g, t, gray + {x}, x);
    forall y | y in s.onStack ensures HasAnchor(g, t, gray + {x}, y) {
      assert HasAnchor(g, s, gray, y);
      AnchorKept(g, s, t, gray, x, y);
    }
  }

  lemma PushInv(g: Graph, s: Snapshot, gray: set<Name>, x: Name)
    requires Inv(g, s, gray)
    requires x in g && x !in s.indices
    requires forall r :: r in gray ==> Reach(g, r, x)
    ensures Inv(g, Pushed(s, x), gray + {x})
  {
    var t := Pushed(s, x);
    PushShape(g, s, x);
    PushFacts(g, s);
    DoneFrame(g, s, t);
    PushGray(g, s, gray, x);
    PushAnchored(g, s, gray, x);
    hide CyclesExact, DoneClosed, GrayReaches, Anchored, Reach, Extends, Shape, Edge;
  }

  lemma PushFacts(g: Graph, s: Snapshot)
    requires Shape(g, s)
    ensures s.onStack <= s.indices.Keys && forall y :: y in s.indices ==> Num(s, y) < s.index
  {
  }

  function WithLow(s: Snapshot, x: Name, low: nat): Snapshot {
    s.(lowlinks := s.lowlinks[x := low])
  }

  lemma WithLowInv(g: Graph, s: Snapshot, gray: set<Name>, x: Name, low: nat)
    requires Inv(g, s, gray) && x in s.indices
    ensures Inv(g, WithLow(s, x, low), gray)
  {
    hide CyclesExact, DoneClosed, Anchored, GrayReaches, NoBlackToWhite, Shape;
    var t := WithLow(s, x, low);
    WithLowShape(g, s, gray, x, low);
    hide Num, Done;
    DoneFrame(g, s, t);
    WithLowReach(g, s, gray, t);
  }

  lemma WithLowShape(g: Graph, s: Snapshot, gray: set<Name>, x: Name, low: nat)
    requires Shape(g, s) && NoBlackToWhite(g, s, gray) && x in s.indices
    ensures Shape(g, WithLow(s, x, low)) && NoBlackToWhite(g, WithLow(s, x, low), gray)
    ensures forall y :: Num(WithLow(s, x, low), y) == Num(s, y)
    ensures forall y :: Done(s, y) <==> Done(WithLow(s, x, low), y)
  {
    hide Edge;
    assert forall y :: Num(WithLow(s, x, low), y) == Num(s, y);
  }

  lemma WithLowReach(g: Graph, s: Snapshot, gray: set<Name>, t: Snapshot)
    requires GrayReaches(g, s, gray) && Anchored(g, s, gray)
    requires t.onStack == s.onStack && forall y :: Num(t, y) == Num(s, y)
    ensures GrayReaches(g, t, gray) && Anchored(g, t, gray)
  {
    hide Reach, Num;
    forall y | y in t.onStack ensures HasAnchor(g, t, gray, y) {
      assert HasAnchor(g, s, gray, y);
    }
  }

  lemma WithLowExtends(s: Snapshot, t: Snapshot, x: Name, low: nat)
    requires Extends(s, t) && x !in s.lowlinks
    ensures Extends(s, WithLow(t, x, low))
  {
    assert forall y :: Num(WithLow(t, x, low), y) == Num(t, y);
  }

  lemma PrefixElements(a: seq<Name>, b: seq<Name>)
    requires a <= b
    ensures Elements(a) <= Elements(b)
  {
  }

  lemma AfterChildWitness(g: Graph, t: Snapshot, t': Snapshot, x: Name, d: Name)
    requires Shape(g, t) && Shape(g, t') && Edge(g, x, d)
    requires LowWitness(g, t, x) && x in t.indices && Low(t, x) <= Num(t, x)
    requires Connected(g, t, t', d)
    ensures LowWitness(g, WithLow(t', x, Min(Low(t', x), Low(t', d))), x)
  {
    var low := Min(Low(t', x), Low(t', d));
    var w := WithLow(t', x, low);
    PrefixElements(t.stack, t'.stack);
    hide Reach, Elements, Edge, LowBound;
    if low < Low(t', x) {
      var y :| y in t'.onStack && Num(t', y) == Low(t', d) && Reach(g, d, y);
      ReachEdge(g, x, d);
      ReachTransitive(g, x, d, y);
      assert y in w.onStack && Num(w, y) == Low(w, x);
    } else {
      var y :| y in t.onStack && Num(t, y) == Low(t, x) && Reach(g, x, y);
      assert y in w.onStack && Num(w, y) == Low(w, x);
    }
  }

  /** The dependency was unvisited and `strong_connect` has been called on it. */
  lemma AfterChild(g: Graph, s: Snapshot, t: Snapshot, t': Snapshot, x: Name, n: nat)
    requires Shape(g, s) && Shape(g, t) && Shape(g, t')
    requires Visiting(g, s, t, x, n) && n < |g[x]|
    requires x !in s.indices
    requires g[x][n] !in t.indices && Connected(g, t, t', g[x][n])
    ensures Visiting(g, s, WithLow(t', x, Min(Low(t', x), Low(t', g[x][n]))), x, n + 1)
  {
    var d := g[x][n];
    var low := Min(Low(t', x), Low(t', d));
    var w := WithLow(t', x, low);
    assert Edge(g, x, d);
    AfterChildWitness(g, t, t', x, d);
    AfterChildBounds(g, s, t, t', x, d, low);
    WithLowExtends(s, t', x, low);
    PrefixElements(s.stack, t.stack);
    hide Reach, Elements, Edge, LowWitness, Shape;
    AfterChildProcessed(g, s, t, t', w, x, n);
    hide Processed;
    assert LowBound(g, w, Elements(w.stack[|s.stack| + 1..]), s.onStack, Low(w, x));
    hide LowBound, Extends;
    assert Low(w, x) <= Num(w, x);
    assert Num(w, x) == s.index && x in w.indices && s.stack + [x] <= w.stack;
  }

  lemma AfterChildProcessed(g: Graph, s: Snapshot, t: Snapshot, t': Snapshot, w: Snapshot, x: Name, n: nat)
    requires x in g && n < |g[x]| && Processed(g, s, t, x, n) && Extends(t, t')
    requires s.onStack <= t.indices.Keys && g[x][n] !in t.indices && g[x][n] in t'.indices
    requires x in t.lowlinks && w.indices == t'.indices && Low(w, x) <= Low(t', x)
    ensures Processed(g, s, w, x, n + 1)
  {
  }

  lemma AfterChildBounds(g: Graph, s: Snapshot, t: Snapshot, t': Snapshot, x: Name, d: Name, low: nat)
    requires Shape(g, t) && s.onStack == Elements(s.stack) && s.stack + [x] <= t.stack
    requires Extends(s, t) && Extends(t, t')
    requires LowBound(g, t, Elements(t.stack[|s.stack| + 1..]), s.onStack, Low(t, x))
    requires x in t.indices && x in t.lowlinks
    requires Connected(g, t, t', d) && low <= Low(t', x) && low <= Low(t', d)
    ensures Extends(s, t')
    ensures LowBound(g, t', Elements(t'.stack[|s.stack| + 1..]), s.onStack, low)
  {
    hide Reach, LowWitness;
    ExtendsTransitive(s, t, t');
    var k := |s.stack| + 1;
    assert t'.stack[k..] == t.stack[k..] + t'.stack[|t.stack|..];
    ElementsConcat(t.stack[k..], t'.stack[|t.stack|..]);
    assert forall y :: y in s.stack ==> y in t.stack;
  }

  lemma ExtendsTransitive(s: Snapshot, t: Snapshot, t': Snapshot)
    requires Extends(s, t) && Extends(t, t')
    ensures Extends(s, t')
  {
    assert t'.stack[|s.stack|..] == t.stack[|s.stack|..] + t'.stack[|t.stack|..];
    ElementsConcat(t.stack[|s.stack|..], t'.stack[|t.stack|..]);
  }

  /** The dependency is on the stack: its own number bounds the lowlink. */
  lemma AfterStacked(g: Graph, s: Snapshot, t: Snapshot, x: Name, n: nat)
    requires Shape(g, s) && Shape(g, t)
    requires Visiting(g, s, t, x, n) && n < |g[x]|
    requires x !in s.indices && g[x][n] in t.onStack
    ensures Visiting(g, s, WithLow(t, x, Min(Low(t, x), Num(t, g[x][n]))), x, n + 1)
  {
    var d := g[x][n];
    var w := WithLow(t, x, Min(Low(t, x), Num(t, d)));
    WithLowExtends(s, t, x, Min(Low(t, x), Num(t, d)));
    assert Edge(g, x, d);
    ReachEdge(g, x, d);
    hide Reach, Elements, Edge, Shape;
    assert LowWitness(g, w, x) by {
      var y :| y in t.onStack && Num(t, y) == Low(t, x) && Reach(g, x, y);
      assert y in w.onStack && d in w.onStack && Num(w, y) == Num(t, y) && Num(w, d) == Num(t, d);
    }
    assert Processed(g, s, w, x, n + 1);
    assert LowBound(g, w, Elements(w.stack[|s.stack| + 1..]), s.onStack, Low(w, x));
    hide LowBound, Processed, LowWitness;
  }

  /** The dependency's component has already been emitted: nothing changes. */
  lemma AfterDone(g: Graph, s: Snapshot, t: Snapshot, x: Name, n: nat)
    requires Shape(g, s) && Shape(g, t)
    requires Visiting(g, s, t, x, n) && n < |g[x]|
    requires Done(t, g[x][n])
    ensures Visiting(g, s, t, x, n + 1)
  {
    PrefixElements(s.stack, t.stack);
    hide Elements, Shape, Extends, LowWitness, LowBound;
  }

  /** All dependencies of `x` are processed and `x` is not the root of its component. */
  lemma CloseInner(g: Graph, s: Snapshot, t: Snapshot, gray: set<Name>, x: Name)
    requires Shape(g, s) && gray <= s.onStack && x !in s.indices
    requires Inv(g, t, gray + {x}) && x in g && Visiting(g, s, t, x, |g[x]|)
    requires Low(t, x) != Num(t, x)
    ensures Inv(g, t, gray) && Connected(g, s, t, x)
  {
    hide Reach, Elements, Shape, Edge, CyclesExact, DoneClosed, Anchored, NoBlackToWhite;
    hide LowWitness, LowBound, Extends, Processed, Num, Low;
    CloseInnerAnchored(g, t, gray, x);
    CloseBlack(g, s, t, gray, x);
    CloseBound(g, s, t, x);
    assert GrayReaches(g, t, gray);
  }

  lemma CloseInnerAnchored(g: Graph, t: Snapshot, gray: set<Name>, x: Name)
    requires Anchored(g, t, gray + {x}) && LowWitness(g, t, x) && Low(t, x) < Num(t, x)
    ensures Anchored(g, t, gray)
  {
    hide Reach, Num, Low;
    var z :| z in t.onStack && Num(t, z) == Low(t, x) && Reach(g, x, z);
    assert HasAnchor(g, t, gray + {x}, z);
    var r :| r in gray + {x} && Num(t, r) <= Num(t, z) && Reach(g, z, r);
    ReachTransitive(g, x, z, r);
    forall y | y in t.onStack ensures HasAnchor(g, t, gray, y) {
      assert HasAnchor(g, t, gray + {x}, y);
      var q :| q in gray + {x} && Num(t, q) <= Num(t, y) && Reach(g, y, q);
      if q == x {
        ReachTransitive(g, y, x, r);
        assert r in gray;
      }
    }
  }

  /** With its dependencies processed, `x` has only visited ones. */
  lemma CloseBlack(g: Graph, s: Snapshot, t: Snapshot, gray: set<Name>, x: Name)
    requires NoBlackToWhite(g, t, gray + {x}) && x in g && Processed(g, s, t, x, |g[x]|)
    ensures NoBlackToWhite(g, t, gray)
  {
    forall a, b | a in t.indices && a !in gray && Edge(g, a, b) ensures b in t.indices {
      if a == x {
        var j :| 0 <= j < |g[x]| && g[x][j] == b;
      }
    }
  }

  /** The lowlink bounds every edge from the new part of the stack into the old part. */
  lemma CloseBound(g: Graph, s: Snapshot, t: Snapshot, x: Name)
    requires x in g && Visiting(g, s, t, x, |g[x]|)
    ensures LowBound(g, t, Elements(t.stack[|s.stack|..]), s.onStack, Low(t, x))
    ensures x in Elements(t.stack[|s.stack|..])
  {
    assert t.stack[|s.stack|..] == [x] + t.stack[|s.stack| + 1..];
    ElementsConcat([x], t.stack[|s.stack| + 1..]);
    hide Elements, Extends, LowWitness;
    forall u, v | u in Elements(t.stack[|s.stack|..]) && Edge(g, u, v) && v in s.onStack
      ensures Low(t, x) <= Num(t, v)
    {
      if u == x {
        var j :| 0 <= j < |g[x]| && g[x][j] == v;
      }
    }
  }

  /** The popped part of the stack, when `x` is the root of its component. */
  ghost function Popped(s: Snapshot, t: Snapshot): set<Name>
    requires s.stack <= t.stack
  {
    Elements(t.stack[|s.stack|..])
  }

  ghost predicate RootReady(g: Graph, s: Snapshot, t: Snapshot, gray: set<Name>, x: Name) {
    && Shape(g, s) && gray <= s.onStack && x !in s.indices
    && Inv(g, t, gray + {x}) && x in g && Visiting(g, s, t, x, |g[x]|)
    && Low(t, x) == Num(t, x)
  }

  /** The popped names are new, the rest of the stack is the old one. */
  lemma PoppedFacts(g: Graph, s: Snapshot, t: Snapshot, gray: set<Name>, x: Name)
    requires RootReady(g, s, t, gray, x)
    ensures x in Popped(s, t) && Popped(s, t) <= t.onStack
    ensures Popped(s, t) !! s.indices.Keys && t.onStack - Popped(s, t) == s.onStack
    ensures s.onStack <= s.indices.Keys
    ensures forall y :: y in Popped(s, t) ==> s.index <= Num(t, y)
    ensures forall y :: y in s.onStack ==> Num(t, y) < s.index
    ensures LowBound(g, t, Popped(s, t), s.onStack, Low(t, x))
    ensures NoBlackToWhite(g, t, gray)
  {
    hide Reach, Edge, CyclesExact, DoneClosed, Anchored, GrayReaches, NoBlackToWhite, LowWitness;
    hide LowBound, Processed;
    CloseBound(g, s, t, x);
    CloseBlack(g, s, t, gray, x);
    assert t.stack == s.stack + t.stack[|s.stack|..];
    ElementsConcat(s.stack, t.stack[|s.stack|..]);
    hide Elements;
  }

  /** Every edge out of the popped part ends in an emitted component. */
  lemma PoppedBorder(g: Graph, s: Snapshot, t: Snapshot, gray: set<Name>, x: Name, a: Name, b: Name)
    requires RootReady(g, s, t, gray, x)
    requires a in Popped(s, t) && Edge(g, a, b) && b !in Popped(s, t)
    ensures Done(t, b)
  {
    PoppedFacts(g, s, t, gray, x);
    hide Popped, Reach, Shape, Edge, CyclesExact, DoneClosed, Anchored, GrayReaches, LowWitness;
    hide Processed, Extends;
    assert a !in gray;
  }

  lemma DoneReach(g: Graph, t: Snapshot, a: Name, b: Name)
    requires DoneClosed(g, t) && Done(t, a) && Reach(g, a, b)
    ensures Done(t, b)
  {
    hide Reach, Edge;
    ClosedSet(g, a, b, set y | y in t.indices && Done(t, y));
  }

  /** The popped part is the strongly connected component of `x`. */
  lemma PoppedIsComponent(g: Graph, s: Snapshot, t: Snapshot, gray: set<Name>, x: Name, y: Name)
    requires RootReady(g, s, t, gray, x)
    ensures y in Popped(s, t) <==> SameComponent(g, x, y)
  {
    PoppedFacts(g, s, t, gray, x);
    if y in Popped(s, t) {
      PoppedReaches(g, s, t, gray, x, y);
    } else if SameComponent(g, x, y) {
      hide Reach, Edge, Popped;
      var a, b := Border(g, x, y, Popped(s, t));
      PoppedBorder(g, s, t, gray, x, a, b);
      ReachTransitive(g, b, y, x);
      DoneReach(g, t, b, x);
    }
  }

  lemma PoppedReaches(g: Graph, s: Snapshot, t: Snapshot, gray: set<Name>, x: Name, y: Name)
    requires RootReady(g, s, t, gray, x) && y in Popped(s, t)
    ensures SameComponent(g, x, y)
  {
    hide Popped, Reach, Edge, Shape, CyclesExact, DoneClosed, NoBlackToWhite, LowWitness, Processed;
    hide Extends, LowBound, Num, Low, HasAnchor;
    PoppedFacts(g, s, t, gray, x);
    assert Reach(g, x, y) by {
      assert Num(t, x) <= Num(t, y) && x in t.onStack;
    }
    assert HasAnchor(g, t, gray + {x}, y);
    PoppedAnchor(g, s, t, gray, x, y);
  }

  lemma PoppedAnchor(g: Graph, s: Snapshot, t: Snapshot, gray: set<Name>, x: Name, y: Name)
    requires RootReady(g, s, t, gray, x) && y in Popped(s, t) && HasAnchor(g, t, gray + {x}, y)
    ensures Reach(g, y, x)
  {
    hide Popped, Reach, Edge, Shape, CyclesExact, DoneClosed, NoBlackToWhite, LowWitness, Processed;
    hide Extends, LowBound, Num, Low, Anchored, GrayReaches;
    var r :| r in gray + {x} && Num(t, r) <= Num(t, y) && Reach(g, y, r);
    if r != x {
      PoppedFacts(g, s, t, gray, x);
      var a, b := Border(g, y, r, Popped(s, t));
      PoppedBorder(g, s, t, gray, x, a, b);
      DoneReach(g, t, b, r);
    }
  }

  /** Every member of a cyclic component maps to the whole component. */
  function Recorded(cycles: map<Name, seq<Name>>, members: seq<Name>): map<Name, seq<Name>> {
    cycles + map m | m in Elements(members) :: members
  }

  /** The state after popping the component and recording it when it is a cycle. */
  ghost predicate RootClosed(g: Graph, s: Snapshot, t: Snapshot, t': Snapshot, x: Name, members: seq<Name>)
    requires s.stack <= t.stack && x in g
  {
    && t'.index == t.index && t'.indices == t.indices && t'.lowlinks == t.lowlinks
    && t'.stack == s.stack && t'.onStack == t.onStack - Popped(s, t)
    && Ascending(members) && Elements(members) == Popped(s, t)
    && t'.cycles == if |members| > 1 || x in g[x]
                    then Recorded(t.cycles, members)
                    else t.cycles
  }

  /** The test `len(members) > 1 or name in hard_dependencies[name]` decides being on a cycle. */
  lemma CycleTest(g: Graph, members: seq<Name>, x: Name, y: Name)
    requires IsComponent(g, members, x) && y in members && x in g
    ensures OnCycle(g, y) <==> |members| > 1 || x in g[x]
  {
    ReachSelf(g, x);
    assert SameComponent(g, x, x) && SameComponent(g, x, y);
    if |members| > 1 {
      var z := if members[0] == y then members[1] else members[0];
      assert Less(members[0], members[1]) && z in members && z != y;
      hide Reach, Edge;
      ReachTransitive(g, y, x, z);
      ReachTransitive(g, z, x, y);
      var w := FirstEdge(g, y, z);
      ReachTransitive(g, w, z, y);
    } else {
      assert members[0] == x == y;
      assert Edge(g, x, x) <==> x in g[x];
      if OnCycle(g, y) {
        var w :| Edge(g, y, w) && Reach(g, w, y);
        ReachEdge(g, y, w);
        assert w in members;
      }
    }
  }

  lemma ComponentOfMember(g: Graph, members: seq<Name>, x: Name, y: Name)
    requires IsComponent(g, members, x) && y in members
    ensures IsComponent(g, members, y)
  {
    hide Reach;
    forall z ensures z in members <==> SameComponent(g, y, z) {
      if z in members {
        ReachTransitive(g, y, x, z);
        ReachTransitive(g, z, x, y);
      } else if SameComponent(g, y, z) {
        ReachTransitive(g, x, y, z);
        ReachTransitive(g, z, y, x);
      }
    }
  }

  lemma RootCycles(g: Graph, s: Snapshot, t: Snapshot, t': Snapshot, gray: set<Name>, x: Name, members: seq<Name>)
    requires RootReady(g, s, t, gray, x) && RootClosed(g, s, t, t', x, members)
    ensures CyclesExact(g, t')
  {
    PoppedFacts(g, s, t, gray, x);
    assert IsComponent(g, members, x) by {
      forall y ensures y in members <==> SameComponent(g, x, y) {
        PoppedIsComponent(g, s, t, gray, x, y);
      }
    }
    RootCyclesFrom(g, t, t', x, members, Popped(s, t));
  }

  lemma RootCyclesFrom(g: Graph, t: Snapshot, t': Snapshot, x: Name, members: seq<Name>, popped: set<Name>)
    requires CyclesExact(g, t) && IsComponent(g, members, x) && x in g
    requires popped == Elements(members) && popped <= t.onStack <= t.indices.Keys
    requires t'.indices == t.indices && t'.onStack == t.onStack - popped
    requires t'.cycles == if |members| > 1 || x in g[x]
                          then Recorded(t.cycles, members)
                          else t.cycles
    ensures CyclesExact(g, t')
  {
    hide OnCycle, SameComponent, IsComponent;
    forall y ensures y in t'.cycles <==> Done(t', y) && OnCycle(g, y) {
      if y in members {
        CycleTest(g, members, x, y);
      }
    }
    forall y | y in t'.cycles ensures IsComponent(g, t'.cycles[y], y) {
      if y in members {
        ComponentOfMember(g, members, x, y);
      }
    }
  }

  lemma RootDone(g: Graph, s: Snapshot, t: Snapshot, t': Snapshot, gray: set<Name>, x: Name, members: seq<Name>)
    requires RootReady(g, s, t, gray, x) && RootClosed(g, s, t, t', x, members)
    ensures DoneClosed(g, t')
  {
    PoppedFacts(g, s, t, gray, x);
    hide Popped, Reach, Edge, Shape, CyclesExact, NoBlackToWhite, LowWitness, Processed, Extends, LowBound;
    hide GrayReaches, Anchored;
    forall a, b | Done(t', a) && Edge(g, a, b) ensures Done(t', b) {
      if a in Popped(s, t) {
        if b !in Popped(s, t) {
          PoppedBorder(g, s, t, gray, x, a, b);
        }
      } else {
        assert Done(t, a);
      }
    }
  }

  lemma RootAnchored(g: Graph, t: Snapshot, t': Snapshot, gray: set<Name>, x: Name)
    requires Anchored(g, t, gray + {x}) && GrayReaches(g, t, gray + {x}) && NoBlackToWhite(g, t, gray)
    requires t'.indices == t.indices && t'.onStack <= t.onStack
    requires forall y :: y in t'.onStack ==> Num(t, y) < Num(t, x)
    ensures Anchored(g, t', gray) && GrayReaches(g, t', gray) && NoBlackToWhite(g, t', gray)
  {
    hide Reach, Edge;
    forall y | y in t'.onStack ensures HasAnchor(g, t', gray, y) {
      assert HasAnchor(g, t, gray + {x}, y);
      var r :| r in gray + {x} && Num(t, r) <= Num(t, y) && Reach(g, y, r);
      assert r != x;
      assert Num(t', r) <= Num(t', y);
    }
  }

  lemma RootShape(g: Graph, s: Snapshot, t: Snapshot, t': Snapshot, x: Name)
    requires Shape(g, s) && Shape(g, t) && Extends(s, t)
    requires t'.index == t.index && t'.indices == t.indices && t'.lowlinks == t.lowlinks
    requires t'.stack == s.stack && t'.onStack == s.onStack
    ensures Shape(g, t') && Extends(s, t')
    ensures LowBound(g, t', Elements(t'.stack[|s.stack|..]), s.onStack, Low(t', x))
  {
    assert t'.stack[|s.stack|..] == [];
    assert forall y :: Num(t', y) == Num(t, y) && Low(t', y) == Low(t, y);
  }

  lemma RootBase(g: Graph, s: Snapshot, t: Snapshot, gray: set<Name>, x: Name)
    requires RootReady(g, s, t, gray, x)
    ensures |s.stack| < |t.stack| && t.stack[|s.stack|] == x && t.stack[..|s.stack|] == s.stack
    ensures x in g && Distinct(t.stack)
  {
    hide Reach, Edge, CyclesExact, DoneClosed, Anchored, GrayReaches, NoBlackToWhite, LowWitness;
    hide Processed, LowBound, Extends;
    StackDistinct(g, t);
    assert (s.stack + [x])[|s.stack|] == x;
  }

  /** All dependencies of `x` are processed and `x` is the root: its component is popped. */
  lemma CloseRoot(g: Graph, s: Snapshot, t: Snapshot, t': Snapshot, gray: set<Name>, x: Name, members: seq<Name>)
    requires RootReady(g, s, t, gray, x) && RootClosed(g, s, t, t', x, members)
    ensures Inv(g, t', gray) && Connected(g, s, t', x)
  {
    hide Reach, Edge, CyclesExact, DoneClosed, Anchored, GrayReaches, NoBlackToWhite, LowWitness, Processed;
    hide LowBound, Popped, Extends, Shape, Elements, IsComponent;
    PoppedFacts(g, s, t, gray, x);
    RootCycles(g, s, t, t', gray, x, members);
    RootDone(g, s, t, t', gray, x, members);
    RootAnchored(g, t, t', gray, x);
    RootShape(g, s, t, t', x);
  }

  /** The closure variables of `_topo_sort_plugins` while it looks for hard cycles. */
  class Search {
    const g: Graph
    var index: nat
    var indices: map<Name, nat>
    var lowlinks: map<Name, nat>
    var stack: seq<Name>
    var onStack: set<Name>
    var cycleMap: map<Name, seq<Name>>

    ghost function View(): Snapshot
      reads this
    {
      Snapshot(index, indices, lowlinks, stack, onStack, cycleMap)
    }

    constructor (g: Graph)
      ensures this.g == g
      ensures View() == Snapshot(0, map[], map[], [], {}, map[])
    {
      this.g := g;
      index, indices, lowlinks, stack, onStack, cycleMap := 0, map[], map[], [], {}, map[];
    }

    /** Pop the stack down to and including `name`. */
    method PopComponent(name: Name, ghost base: nat) returns (component: seq<Name>)
      requires base < |stack| && stack[base] == name && Distinct(stack)
      modifies this`stack, this`onStack
      ensures stack == old(stack)[..base]
      ensures Elements(component) == Elements(old(stack)[base..])
      ensures onStack == old(onStack) - Elements(old(stack)[base..])
    {
      component := [];
      ghost var t := stack;
      while stack != []
        invariant base < |stack| <= |t| && stack == t[..|stack|]
        invariant Elements(component) == Elements(t[|stack|..])
        invariant onStack == old(onStack) - Elements(component)
        decreases |stack|
      {
        var member := stack[|stack| - 1];
        ghost var k := |stack| - 1;
        stack := stack[..|stack| - 1];
        onStack := onStack - {member};
        ElementsConcat(component, [member]);
        component := component + [member];
        assert t[k..] == [t[k]] + t[k + 1..];
        ElementsConcat([t[k]], t[k + 1..]);
        if member == name {
          assert k == base;
          break;
        }
      }
    }

    /** Record the emitted component when it is a cycle. */
    method Emit(name: Name, component: seq<Name>) returns (ghost members: seq<Name>)
      requires name in g
      modifies this`cycleMap
      ensures Ascending(members) && Elements(members) == Elements(component)
      ensures cycleMap == if |members| > 1 || name in g[name]
                          then Recorded(old(cycleMap), members)
                          else old(cycleMap)
    {
      var sorted := Sorted(component);
      members := sorted;
      SortedAscending(component);
      if |sorted| > 1 || name in g[name] {
        cycleMap := Recorded(cycleMap, sorted);
      }
    }

    /** Number the name and push it. */
    method Enter(name: Name)
      modifies this
      ensures View() == Pushed(old(View()), name)
    {
      indices := indices[name := index];
      lowlinks := lowlinks[name := index];
      index := index + 1;
      stack := stack + [name];
      onStack := onStack + {name};
    }

    /** `name` is the root of its component: pop it and record it. */
    method CloseComponent(name: Name, ghost s: Snapshot, ghost gray: set<Name>)
      requires RootReady(g, s, View(), gray, name)
      modifies this
      ensures Inv(g, View(), gray) && Connected(g, s, View(), name)
    {
      hide RootReady, Inv, Connected, Elements, Ascending, Distinct, Recorded;
      ghost var t := View();
      RootBase(g, s, t, gray, name);
      var component := PopComponent(name, |s.stack|);
      ghost var members := Emit(name, component);
      CloseRoot(g, s, t, View(), gray, name, members);
    }

    method StrongConnect(name: Name, ghost gray: set<Name>)
      requires Closed(g) && name in g && name !in indices
      requires Inv(g, View(), gray)
      requires forall r :: r in gray ==> Reach(g, r, name)
      modifies this
      ensures Inv(g, View(), gray)
      ensures Connected(g, old(View()), View(), name)
      decreases g.Keys - indices.Keys
    {
      hide Reach, Edge, CyclesExact, DoneClosed, Anchored, GrayReaches, NoBlackToWhite, LowWitness;
      hide Processed, LowBound, Elements;
      ghost var s := View();
      PushInv(g, s, gray, name);
      PushVisiting(g, s, name);
      Enter(name);
      hide Pushed;

      var i := 0;
      while i < |g[name]|
        invariant i <= |g[name]|
        invariant Inv(g, View(), gray + {name})
        invariant Visiting(g, s, View(), name, i)
      {
        var dependency := g[name][i];
        ghost var t := View();
        if dependency !in indices {
          Step(g, gray, name, i);
          StrongConnect(dependency, gray + {name});
          AfterChild(g, s, t, View(), name, i);
          WithLowInv(g, View(), gray + {name}, name, Min(Low(View(), name), Low(View(), dependency)));
          lowlinks := lowlinks[name := Min(lowlinks[name], lowlinks[dependency])];
        } else if dependency in onStack {
          AfterStacked(g, s, t, name, i);
          WithLowInv(g, t, gray + {name}, name, Min(Low(t, name), Num(t, dependency)));
          lowlinks := lowlinks[name := Min(lowlinks[name], indices[dependency])];
        } else {
          AfterDone(g, s, t, name, i);
        }
        i := i + 1;
      }

      ghost var t := View();
      if lowlinks[name] != indices[name] {
        CloseInner(g, s, t, gray, name);
        return;
      }
      CloseComponent(name, s, gray);
    }

    /** `for name in names: if name not in indices: strong_connect(name)`. */
    method Run(names: seq<Name>)
      requires Closed(g) && Elements(names) == g.Keys
      requires View() == Snapshot(0, map[], map[], [], {}, map[])
      modifies this
      ensures forall x :: x in cycleMap <==> x in g && OnCycle(g, x)
      ensures forall x :: x in cycleMap ==> IsComponent(g, cycleMap[x], x)
    {
      var i := 0;
      while i < |names|
        invariant i <= |names|
        invariant Inv(g, View(), {})
        invariant forall j :: 0 <= j < i ==> names[j] in indices
      {
        if names[i] !in indices {
          StrongConnect(names[i], {});
        }
        i := i + 1;
      }
      assert onStack == {} by {
        assert forall y :: y in onStack ==> HasAnchor(g, View(), {}, y);
      }
    }
  }

  lemma StackDistinct(g: Graph, t: Snapshot)
    requires Shape(g, t)
    ensures Distinct(t.stack)
  {
  }

  /** Every name being visited reaches the dependency about to be visited. */
  lemma Step(g: Graph, gray: set<Name>, name: Name, i: nat)
    requires name in g && i < |g[name]|
    requires forall r :: r in gray ==> Reach(g, r, name)
    ensures Closed(g) ==> g[name][i] in g
    ensures forall r :: r in gray + {name} ==> Reach(g, r, g[name][i])
  {
    assert Edge(g, name, g[name][i]);
    ReachEdge(g, name, g[name][i]);
    hide Reach;
    forall r | r in gray ensures Reach(g, r, g[name][i]) {
      ReachTransitive(g, r, name, g[name][i]);
    }
  }

  /** The cycle map as a value: what `_topo_sort_plugins` stores in `_plugin_dependency_cycles`. */
  method CycleMap(g: Graph, names: seq<Name>) returns (cycles: map<Name, seq<Name>>)
    requires Closed(g) && Elements(names) == g.Keys
    ensures forall x :: x in cycles <==> x in g && OnCycle(g, x)
    ensures forall x :: x in cycles ==> IsComponent(g, cycles[x], x)
  {
    var search := new Search(g);
    search.Run(names);
    cycles := search.cycleMap;
  }
}
