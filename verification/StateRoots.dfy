/** Which directories a transaction backs up, and where their swaps put things. */
module StateRoots {
  import opened Names
  import opened FileTree

  datatype StateRoot = StateRoot(name: Name, path: Path)

  predicate Nested(a: Path, b: Path) {
    Within(a, b) || Within(b, a)
  }

  ghost predicate PairwiseApart(roots: seq<StateRoot>) {
    forall i, j :: 0 <= i < j < |roots| ==> Apart(roots[i].path, roots[j].path)
  }

  predicate Overlaps(covered: seq<StateRoot>, path: Path) {
    exists r :: r in covered && Nested(path, r.path)
  }

  /** `_state_roots`: take each candidate in turn unless it overlaps one already taken. */
  function Select(roots: seq<StateRoot>, candidates: seq<StateRoot>): seq<StateRoot>
    decreases |candidates|
  {
    if candidates == [] then roots
    else if Overlaps(roots, candidates[0].path) then Select(roots, candidates[1..])
    else Select(roots + [candidates[0]], candidates[1..])
  }

  /** The chosen roots are pairwise non-nested, so no swap's staging path lies in another root. */
  lemma {:induction false} SelectApart(roots: seq<StateRoot>, candidates: seq<StateRoot>)
    requires PairwiseApart(roots)
    ensures PairwiseApart(Select(roots, candidates))
    ensures roots <= Select(roots, candidates)
    decreases |candidates|
  {
    if candidates != [] {
      if Overlaps(roots, candidates[0].path) {
        SelectApart(roots, candidates[1..]);
      } else {
        var more := roots + [candidates[0]];
        forall i | 0 <= i < |roots| ensures Apart(more[i].path, candidates[0].path) {
          assert roots[i] in roots;
        }
        SelectApart(more, candidates[1..]);
      }
    }
  }

  /** The path lies inside one of the chosen roots. */
  ghost predicate Covered(roots: seq<StateRoot>, path: Path) {
    exists r :: r in roots && Within(path, r.path)
  }

  /** A chosen root lies strictly inside the path. */
  ghost predicate Swallows(roots: seq<StateRoot>, path: Path) {
    exists r :: r in roots && Within(r.path, path) && r.path != path
  }

  /** One turn keeps the roots apart, and afterwards the candidate is nested with one of them. */
  lemma NextApart(roots: seq<StateRoot>, head: StateRoot)
    requires PairwiseApart(roots)
    ensures var next := if Overlaps(roots, head.path) then roots else roots + [head];
      PairwiseApart(next) && Overlaps(next, head.path)
  {
    SelectApart(roots, [head]);
    assert [head][1..] == [];
    if !Overlaps(roots, head.path) {
      assert Select(roots + [head], []) == roots + [head];
      assert head in roots + [head] && Nested(head.path, head.path);
    }
  }

  lemma {:induction false} SelectMeets(roots: seq<StateRoot>, candidates: seq<StateRoot>, c: StateRoot)
    requires PairwiseApart(roots) && c in candidates
    ensures Overlaps(Select(roots, candidates), c.path)
    decreases |candidates|
  {
    hide PairwiseApart, Nested;
    var head := candidates[0];
    var next := if Overlaps(roots, head.path) then roots else roots + [head];
    NextApart(roots, head);
    if c == head {
      SelectApart(next, candidates[1..]);
      var r :| r in next && Nested(c.path, r.path);
      assert r in Select(next, candidates[1..]);
    } else {
      assert candidates == [head] + candidates[1..];
      SelectMeets(next, candidates[1..], c);
    }
  }

  /** A candidate is left out of the backup in one way only: a chosen root lies strictly inside it. */
  lemma CoveredUnlessSwallowed(roots: seq<StateRoot>, candidates: seq<StateRoot>, c: StateRoot)
    requires PairwiseApart(roots) && c in candidates
    ensures Covered(Select(roots, candidates), c.path) <==> !Swallows(Select(roots, candidates), c.path)
  {
    var all := Select(roots, candidates);
    SelectMeets(roots, candidates, c);
    SelectApart(roots, candidates);
    var m :| m in all && Nested(c.path, m.path);
    if Covered(all, c.path) && Swallows(all, c.path) {
      var a :| a in all && Within(c.path, a.path);
      var b :| b in all && Within(b.path, c.path) && b.path != c.path;
      assert b.path[..|a.path|] == a.path by {
        assert c.path == b.path[..|c.path|];
      }
      NoNested(all, a, b);
    }
  }

  lemma NoNested(roots: seq<StateRoot>, a: StateRoot, b: StateRoot)
    requires PairwiseApart(roots) && a in roots && b in roots && Within(b.path, a.path)
    ensures a.path == b.path
  {
    var i :| 0 <= i < |roots| && roots[i] == a;
    var j :| 0 <= j < |roots| && roots[j] == b;
    assert !(i < j) && !(j < i);
  }

  // ---------------------------------------------------------------- when every candidate is covered

  lemma {:induction false} SelectConcat(roots: seq<StateRoot>, a: seq<StateRoot>, b: seq<StateRoot>)
    ensures Select(roots, a + b) == Select(Select(roots, a), b)
    decreases |a|
  {
    if a == [] {
      assert a + b == b;
    } else {
      assert (a + b)[0] == a[0] && (a + b)[1..] == a[1..] + b;
      SelectConcat(if Overlaps(roots, a[0].path) then roots else roots + [a[0]], a[1..], b);
    }
  }

  /** What has been chosen before candidate `n` is looked at. */
  function Chosen(roots: seq<StateRoot>, candidates: seq<StateRoot>, n: nat): seq<StateRoot>
    requires n <= |candidates|
  {
    Select(roots, candidates[..n])
  }

  lemma ChosenNext(roots: seq<StateRoot>, candidates: seq<StateRoot>, n: nat)
    requires n < |candidates|
    ensures Chosen(roots, candidates, n + 1) ==
            if Overlaps(Chosen(roots, candidates, n), candidates[n].path) then Chosen(roots, candidates, n)
            else Chosen(roots, candidates, n) + [candidates[n]]
  {
    assert candidates[..n + 1] == candidates[..n] + [candidates[n]];
    SelectConcat(roots, candidates[..n], [candidates[n]]);
    assert [candidates[n]][1..] == [];
    var c := Chosen(roots, candidates, n);
    assert Select(c + [candidates[n]], []) == c + [candidates[n]];
  }

  lemma {:induction false} ChosenGrows(roots: seq<StateRoot>, candidates: seq<StateRoot>, m: nat, n: nat, r: StateRoot)
    requires m <= n <= |candidates| && r in Chosen(roots, candidates, m)
    ensures r in Chosen(roots, candidates, n)
    decreases n
  {
    if m < n {
      ChosenGrows(roots, candidates, m, n - 1, r);
      ChosenNext(roots, candidates, n - 1);
    }
  }

  /** A chosen root is canonical, or a candidate that met nothing chosen before it. */
  lemma {:induction false} ChosenFrom(roots: seq<StateRoot>, candidates: seq<StateRoot>, n: nat, r: StateRoot)
    requires n <= |candidates| && r in Chosen(roots, candidates, n)
    ensures r in roots ||
            exists k :: 0 <= k < n && candidates[k] == r && !Overlaps(Chosen(roots, candidates, k), r.path)
  {
    if n == 0 {
      assert candidates[..0] == [];
    } else {
      ChosenNext(roots, candidates, n - 1);
      if r in Chosen(roots, candidates, n - 1) {
        ChosenFrom(roots, candidates, n - 1, r);
      }
    }
  }

  lemma CanonicalChosen(roots: seq<StateRoot>, candidates: seq<StateRoot>, n: nat, r: StateRoot)
    requires n <= |candidates| && r in roots
    ensures r in Chosen(roots, candidates, n)
  {
    assert candidates[..0] == [];
    ChosenGrows(roots, candidates, 0, n, r);
  }

  /** Once looked at, a candidate is nested with something chosen. */
  lemma SeenMeets(roots: seq<StateRoot>, candidates: seq<StateRoot>, m: nat) returns (r: StateRoot)
    requires m < |candidates|
    ensures r in Chosen(roots, candidates, m + 1) && Nested(candidates[m].path, r.path)
  {
    ChosenNext(roots, candidates, m);
    var before := Chosen(roots, candidates, m);
    if Overlaps(before, candidates[m].path) {
      r :| r in before && Nested(candidates[m].path, r.path);
    } else {
      r := candidates[m];
    }
  }

  predicate StrictlyInside(a: Path, b: Path) {
    Within(a, b) && a != b
  }

  /**
   * A condition on the list itself: whenever a place comes before a candidate
   * that strictly contains it, something still earlier contains that candidate.
   */
  ghost predicate OuterFirst(roots: seq<StateRoot>, candidates: seq<StateRoot>) {
    var all := roots + candidates;
    forall i, j :: 0 <= i < j < |all| && |roots| <= j && StrictlyInside(all[i].path, all[j].path) ==>
      exists k :: 0 <= k < i && Within(all[j].path, all[k].path)
  }

  lemma {:induction false} OuterFirstCovers(roots: seq<StateRoot>, candidates: seq<StateRoot>, n: nat)
    requires OuterFirst(roots, candidates) && n < |candidates|
    ensures Covered(Chosen(roots, candidates, n + 1), candidates[n].path)
  {
    hide Select, Within, Chosen;
    var all, j := roots + candidates, |roots| + n;
    var before := Chosen(roots, candidates, n);
    ChosenNext(roots, candidates, n);
    WithinSelf(candidates[n].path);
    assert all[j] == candidates[n];
    if Overlaps(before, all[j].path) && !Covered(before, all[j].path) {
      var s :| s in before && Nested(all[j].path, s.path);
      var i := PlaceOf(roots, candidates, n, s);
      assert StrictlyInside(all[i].path, all[j].path);
      var k :| 0 <= k < i && Within(all[j].path, all[k].path);
      if k < |roots| {
        CanonicalChosen(roots, candidates, n, roots[k]);
      } else {
        var m := k - |roots|;
        assert all[k] == candidates[m];
        OuterFirstCovers(roots, candidates, m);
        var r :| r in Chosen(roots, candidates, m + 1) && Within(candidates[m].path, r.path);
        ChosenGrows(roots, candidates, m + 1, n, r);
        WithinTransitive(all[j].path, all[k].path, r.path);
      }
    }
  }

  /** Where in the whole list a chosen root comes from. */
  lemma PlaceOf(roots: seq<StateRoot>, candidates: seq<StateRoot>, n: nat, s: StateRoot) returns (i: nat)
    requires n <= |candidates| && s in Chosen(roots, candidates, n)
    ensures i < |roots| + n && (roots + candidates)[i] == s
  {
    ChosenFrom(roots, candidates, n, s);
    if s in roots {
      i :| i < |roots| && roots[i] == s;
    } else {
      var k :| 0 <= k < n && candidates[k] == s && !Overlaps(Chosen(roots, candidates, k), s.path);
      i := |roots| + k;
    }
  }

  lemma WithinSelf(a: Path)
    ensures Within(a, a)
  {
  }

  lemma WithinTransitive(a: Path, b: Path, c: Path)
    requires Within(a, b) && Within(b, c)
    ensures Within(a, c)
  {
    assert a[..|c|] == a[..|b|][..|c|];
  }

  /** Two places that hold the same path are nested. */
  lemma BothAround(a: Path, b: Path, c: Path)
    requires Within(a, b) && Within(a, c)
    ensures Nested(b, c)
  {
    if |b| >= |c| {
      assert b[..|c|] == a[..|b|][..|c|] == a[..|c|];
    } else {
      assert c[..|b|] == a[..|c|][..|b|] == a[..|b|];
    }
  }

  /** A chosen root around a place that comes before it cannot be: the place would have blocked it. */
  lemma NotChosenAround(roots: seq<StateRoot>, candidates: seq<StateRoot>, i: nat, k: nat)
    requires k < |candidates| && i < |roots| + k
    requires Within((roots + candidates)[i].path, candidates[k].path)
    ensures Overlaps(Chosen(roots, candidates, k), candidates[k].path)
  {
    var inner, outer := (roots + candidates)[i], candidates[k];
    if i < |roots| {
      CanonicalChosen(roots, candidates, k, inner);
      assert Nested(outer.path, inner.path);
    } else {
      var m := i - |roots|;
      assert inner == candidates[m];
      var s := SeenMeets(roots, candidates, m);
      ChosenGrows(roots, candidates, m + 1, k, s);
      if Within(inner.path, s.path) {
        BothAround(inner.path, outer.path, s.path);
      } else {
        WithinTransitive(s.path, inner.path, outer.path);
      }
    }
  }

  lemma CoversOuterFirst(roots: seq<StateRoot>, candidates: seq<StateRoot>, i: nat, j: nat)
    requires PairwiseApart(roots) && i < j < |roots| + |candidates| && |roots| <= j
    requires StrictlyInside((roots + candidates)[i].path, (roots + candidates)[j].path)
    requires Covered(Chosen(roots, candidates, |candidates|), (roots + candidates)[j].path)
    ensures exists k :: 0 <= k < i && Within((roots + candidates)[j].path, (roots + candidates)[k].path)
  {
    var all := roots + candidates;
    var r :| r in Chosen(roots, candidates, |candidates|) && Within(all[j].path, r.path);
    WithinTransitive(all[i].path, all[j].path, r.path);
    ChosenFrom(roots, candidates, |candidates|, r);
    if r in roots {
      var k :| 0 <= k < |roots| && roots[k] == r;
      if i <= k {
        CanonicalAround(roots, i, k);
      }
      assert all[k] == r;
    } else {
      var k :| 0 <= k < |candidates| && candidates[k] == r && !Overlaps(Chosen(roots, candidates, k), r.path);
      if i < |roots| + k {
        NotChosenAround(roots, candidates, i, k);
      }
      assert all[|roots| + k] == r;
    }
  }

  lemma CanonicalAround(roots: seq<StateRoot>, i: nat, k: nat)
    requires PairwiseApart(roots) && i <= k < |roots| && Within(roots[i].path, roots[k].path)
    ensures i == k
  {
  }

  /**
   * Every candidate directory is inside a backed-up root exactly when the list
   * names outer directories before what they contain, or is covered by something
   * earlier anyway.
   */
  lemma SelectCovers(roots: seq<StateRoot>, candidates: seq<StateRoot>)
    requires PairwiseApart(roots)
    ensures (forall c :: c in candidates ==> Covered(Select(roots, candidates), c.path)) <==>
            OuterFirst(roots, candidates)
  {
    var all, n := roots + candidates, |candidates|;
    assert candidates[..n] == candidates;
    hide Within, Select, Overlaps;
    if OuterFirst(roots, candidates) {
      forall c | c in candidates ensures Covered(Select(roots, candidates), c.path) {
        var m :| 0 <= m < n && candidates[m] == c;
        OuterFirstCovers(roots, candidates, m);
        var r :| r in Chosen(roots, candidates, m + 1) && Within(c.path, r.path);
        ChosenGrows(roots, candidates, m + 1, n, r);
      }
    }
    if forall c :: c in candidates ==> Covered(Select(roots, candidates), c.path) {
      forall i, j | 0 <= i < j < |all| && |roots| <= j && StrictlyInside(all[i].path, all[j].path)
        ensures exists k :: 0 <= k < i && Within(all[j].path, all[k].path)
      {
        assert all[j] in candidates;
        CoversOuterFirst(roots, candidates, i, j);
      }
    }
  }

  /** The failing case is real: a candidate above an already chosen root is not backed up. */
  lemma SwallowedCandidateIsLost(p: Path, x: Name, n: Name, m: Name)
    ensures Select([StateRoot(n, p + [x])], [StateRoot(m, p)]) == [StateRoot(n, p + [x])]
    ensures !Covered(Select([StateRoot(n, p + [x])], [StateRoot(m, p)]), p)
  {
    var inner := StateRoot(n, p + [x]);
    assert Within(inner.path, p) && inner in [inner];
    assert Overlaps([inner], p);
  }

  /** `_state_roots` as its loop. */
  method SelectRoots(canonical: seq<StateRoot>, candidates: seq<StateRoot>) returns (roots: seq<StateRoot>)
    requires PairwiseApart(canonical)
    ensures roots == Select(canonical, candidates)
    ensures PairwiseApart(roots) && canonical <= roots
    ensures (forall c :: c in candidates ==> Covered(roots, c.path)) <==> OuterFirst(canonical, candidates)
  {
    roots := canonical;
    var i := 0;
    while i < |candidates|
      invariant i <= |candidates|
      invariant Select(roots, candidates[i..]) == Select(canonical, candidates)
    {
      assert candidates[i..][0] == candidates[i] && candidates[i..][1..] == candidates[i + 1..];
      if !Overlaps(roots, candidates[i].path) {
        roots := roots + [candidates[i]];
      }
      i := i + 1;
    }
    SelectApart(canonical, candidates);
    SelectCovers(canonical, candidates);
  }

  datatype MergeResult = Merged(roots: seq<StateRoot>) | NameClash(name: Name)

  /** Addition `i` is not covered by what was merged before it, and its name is taken there. */
  ghost predicate Clashes(primary: seq<StateRoot>, additional: seq<StateRoot>, i: nat)
    requires i < |additional|
  {
    var before := Chosen(primary, additional, i);
    !Overlaps(before, additional[i].path) && exists a :: a in before && a.name == additional[i].name
  }

  ghost predicate FirstClash(primary: seq<StateRoot>, additional: seq<StateRoot>, i: nat) {
    i < |additional| && Clashes(primary, additional, i) && forall k :: 0 <= k < i ==> !Clashes(primary, additional, k)
  }

  /** `_merge_state_roots`: the same choice, refused exactly at the first addition that clashes. */
  method MergeRoots(primary: seq<StateRoot>, additional: seq<StateRoot>) returns (r: MergeResult)
    requires PairwiseApart(primary)
    ensures r.NameClash? <==> exists i :: 0 <= i < |additional| && Clashes(primary, additional, i)
    ensures r.NameClash? ==> exists i: nat :: FirstClash(primary, additional, i) && r.name == additional[i].name
    ensures r.Merged? ==> r.roots == Select(primary, additional) && PairwiseApart(r.roots)
  {
    hide Select, Overlaps, PairwiseApart;
    var merged := primary;
    var i := 0;
    ChosenNone(primary, additional);
    while i < |additional|
      invariant i <= |additional| && merged == Chosen(primary, additional, i)
      invariant forall k :: 0 <= k < i ==> !Clashes(primary, additional, k)
      decreases |additional| - i
    {
      var c := additional[i];
      ChosenNext(primary, additional, i);
      if Overlaps(merged, c.path) {
        i := i + 1;
        continue;
      }
      if exists a :: a in merged && a.name == c.name {
        assert FirstClash(primary, additional, i);
        return NameClash(c.name);
      }
      merged := merged + [c];
      i := i + 1;
    }
    assert additional[..i] == additional;
    SelectApart(primary, additional);
    return Merged(merged);
  }

  lemma ChosenNone(roots: seq<StateRoot>, candidates: seq<StateRoot>)
    ensures Chosen(roots, candidates, 0) == roots
  {
    assert candidates[..0] == [];
  }

  /** A sibling of `root` with a generated name. */
  function Sibling(root: Path, name: Name): Path
    requires root != []
  {
    root[..|root| - 1] + [name]
  }

  /**
   * A generated sibling never falls inside a state root, nor a state root inside
   * it, when the roots are not nested and the generated name occurs in no root.
   */
  lemma SiblingApart(roots: seq<StateRoot>, r: StateRoot, s: StateRoot, name: Name)
    requires PairwiseApart(roots) && r in roots && s in roots && r.path != [] && name !in s.path
    ensures Apart(Sibling(r.path, name), s.path)
  {
    var sib, parent := Sibling(r.path, name), r.path[..|r.path| - 1];
    assert sib[|parent|] == name;
    if Within(sib, s.path) {
      InSibling(r.path, s.path, name);
      NoNested(roots, s, r);
    }
  }

  lemma InSibling(r: Path, s: Path, name: Name)
    requires r != [] && name !in s && Within(Sibling(r, name), s)
    ensures Within(r, s) && r != s
  {
    assert Sibling(r, name)[|r| - 1] == name;
    assert forall k :: 0 <= k < |s| ==> s[k] != name;
    assert |s| < |r|;
    assert s == Sibling(r, name)[..|s|] == r[..|s|];
  }

  lemma SiblingsApart(a: Path, b: Path, n: Name, m: Name)
    requires a != [] && b != [] && n != m && n !in b && m !in a
    ensures Apart(Sibling(a, n), Sibling(b, m))
  {
    var x, y := Sibling(a, n), Sibling(b, m);
    assert x[|a| - 1] == n && y[|b| - 1] == m;
    if |a| < |b| {
      assert y[|a| - 1] == b[|a| - 1];
    } else if |b| < |a| {
      assert x[|b| - 1] == a[|b| - 1];
    }
  }
}
