/** Finite directed graphs over plugin names, and reachability by explicit paths. */
module DependencyGraph {
  import opened Names

  /** Each name with its dependency names, in declaration order. */
  type Graph = map<Name, seq<Name>>

  predicate Edge(g: Graph, u: Name, v: Name) {
    u in g && v in g[u]
  }

  /** No edge leaves the graph: the source filters dependencies by the loaded names. */
  ghost predicate Closed(g: Graph) {
    forall u, v :: Edge(g, u, v) ==> v in g
  }

  ghost predicate IsPath(g: Graph, p: seq<Name>, u: Name, v: Name) {
    && p != [] && p[0] == u && p[|p| - 1] == v
    && forall i :: 0 <= i < |p| - 1 ==> Edge(g, p[i], p[i + 1])
  }

  /** Reachability by a path of zero or more edges. */
  ghost predicate Reach(g: Graph, u: Name, v: Name) {
    exists p :: IsPath(g, p, u, v)
  }

  /** A non-empty path leads from the name back to itself. */
  ghost predicate OnCycle(g: Graph, u: Name) {
    exists v :: Edge(g, u, v) && Reach(g, v, u)
  }

  ghost predicate SameComponent(g: Graph, u: Name, v: Name) {
    Reach(g, u, v) && Reach(g, v, u)
  }

  lemma ReachSelf(g: Graph, u: Name)
    ensures Reach(g, u, u)
  {
    assert IsPath(g, [u], u, u);
  }

  lemma ReachEdge(g: Graph, u: Name, v: Name)
    requires Edge(g, u, v)
    ensures Reach(g, u, v)
  {
    assert IsPath(g, [u, v], u, v);
  }

  lemma ReachTransitive(g: Graph, u: Name, v: Name, w: Name)
    requires Reach(g, u, v) && Reach(g, v, w)
    ensures Reach(g, u, w)
  {
    var p :| IsPath(g, p, u, v);
    var q :| IsPath(g, q, v, w);
    var r := p + q[1..];
    forall i | 0 <= i < |r| - 1 ensures Edge(g, r[i], r[i + 1]) {
      if i >= |p| - 1 {
        assert r[i] == q[i - (|p| - 1)];
        assert r[i + 1] == q[i + 1 - (|p| - 1)];
      }
    }
    assert IsPath(g, r, u, w);
  }

  /** A path that leaves a set of names crosses its border on some edge. */
  lemma {:induction false} BorderOfPath(g: Graph, p: seq<Name>, u: Name, v: Name, s: set<Name>)
    returns (a: Name, b: Name)
    requires IsPath(g, p, u, v)
    requires u in s && v !in s
    ensures Edge(g, a, b) && a in s && b !in s
    ensures Reach(g, u, a) && Reach(g, b, v)
    decreases |p|
  {
    var tail := p[1..];
    assert IsPath(g, tail, p[1], v);
    if p[1] in s {
      a, b := BorderOfPath(g, tail, p[1], v, s);
      ReachEdge(g, u, p[1]);
      ReachTransitive(g, u, p[1], a);
    } else {
      a, b := u, p[1];
      ReachSelf(g, u);
      assert Edge(g, p[0], p[1]);
    }
  }

  lemma Border(g: Graph, u: Name, v: Name, s: set<Name>) returns (a: Name, b: Name)
    requires Reach(g, u, v)
    requires u in s && v !in s
    ensures Edge(g, a, b) && a in s && b !in s
    ensures Reach(g, u, a) && Reach(g, b, v)
  {
    var p :| IsPath(g, p, u, v);
    a, b := BorderOfPath(g, p, u, v, s);
  }

  /** A set that no edge leaves contains everything its members reach. */
  lemma ClosedSet(g: Graph, u: Name, v: Name, s: set<Name>)
    requires forall a, b :: a in s && Edge(g, a, b) ==> b in s
    requires u in s && Reach(g, u, v)
    ensures v in s
  {
    if v !in s {
      var a, b := Border(g, u, v, s);
    }
  }

  /** The first edge of a path to a different name. */
  lemma FirstEdge(g: Graph, u: Name, v: Name) returns (w: Name)
    requires Reach(g, u, v) && u != v
    ensures Edge(g, u, w) && Reach(g, w, v)
  {
    var b;
    w, b := Border(g, u, v, {u});
    w := b;
  }

  /** Reachability survives adding edges. */
  lemma ReachMonotone(g: Graph, h: Graph, u: Name, v: Name)
    requires forall a, b :: Edge(g, a, b) ==> Edge(h, a, b)
    requires Reach(g, u, v)
    ensures Reach(h, u, v)
  {
    var p :| IsPath(g, p, u, v);
    assert IsPath(h, p, u, v);
  }
}
