/** Absolute paths, directory trees, and moving whole subtrees with one rename. */
module FileTree {
  import opened Names

  type Path = seq<Name>

  /** Contents are abstract: only equality of content matters here. */
  datatype Node = Dir | File(content: int)

  /** What a subtree holds, by path relative to its top; an absent subtree is empty. */
  type Tree = map<Path, Node>

  /** `_is_within(path, parent)`. */
  predicate Within(path: Path, parent: Path) {
    parent <= path
  }

  predicate Apart(a: Path, b: Path) {
    !Within(a, b) && !Within(b, a)
  }

  /** The relative paths present below `r`. */
  function Below(fs: Tree, r: Path): (s: set<Path>)
    ensures forall rel :: rel in s <==> r + rel in fs
  {
    var s := set q | q in fs && Within(q, r) :: q[|r|..];
    assert forall rel :: rel in s ==> r + rel in fs by {
      forall rel | rel in s ensures r + rel in fs {
        var q :| q in fs && Within(q, r) && q[|r|..] == rel;
        assert q == r + rel;
      }
    }
    assert forall rel :: r + rel in fs ==> rel in s by {
      forall rel | r + rel in fs ensures rel in s {
        assert Within(r + rel, r) && (r + rel)[|r|..] == rel;
      }
    }
    s
  }

  /** The subtree at `r`. */
  function At(fs: Tree, r: Path): Tree {
    map rel | rel in Below(fs, r) :: fs[r + rel]
  }

  /** The tree `t` placed at `r`, and nothing else. */
  function Grafted(r: Path, t: Tree): Tree {
    map q | q in (set p | p in t :: r + p) && q[|r|..] in t :: t[q[|r|..]]
  }

  function Without(fs: Tree, r: Path): Tree {
    map q | q in fs && !Within(q, r) :: fs[q]
  }

  /** `fs` with the subtree at `r` replaced by `t`. */
  function Put(fs: Tree, r: Path, t: Tree): Tree {
    Without(fs, r) + Grafted(r, t)
  }

  /** `os.replace(a, b)` for directories. */
  function Moved(fs: Tree, a: Path, b: Path): Tree {
    Put(Without(fs, a), b, At(fs, a))
  }

  lemma AtKey(fs: Tree, r: Path, rel: Path)
    ensures rel in At(fs, r) <==> r + rel in fs
    ensures rel in At(fs, r) ==> At(fs, r)[rel] == fs[r + rel]
  {
  }

  lemma PutKey(fs: Tree, r: Path, t: Tree, q: Path)
    ensures q in Put(fs, r, t) <==> (if Within(q, r) then q[|r|..] in t else q in fs)
    ensures q in Put(fs, r, t) ==> Put(fs, r, t)[q] == if Within(q, r) then t[q[|r|..]] else fs[q]
  {
    if Within(q, r) {
      assert q == r + q[|r|..];
      assert q !in Without(fs, r);
    } else {
      forall p ensures r + p != q {
        assert r <= r + p;
      }
    }
  }

  lemma AtPut(fs: Tree, r: Path, t: Tree)
    ensures At(Put(fs, r, t), r) == t
  {
    forall rel ensures rel in At(Put(fs, r, t), r) <==> rel in t {
      AtKey(Put(fs, r, t), r, rel);
      PutKey(fs, r, t, r + rel);
      assert (r + rel)[|r|..] == rel;
    }
    forall rel | rel in t ensures At(Put(fs, r, t), r)[rel] == t[rel] {
      AtKey(Put(fs, r, t), r, rel);
      PutKey(fs, r, t, r + rel);
      assert (r + rel)[|r|..] == rel;
    }
  }

  /** Two trees agreeing under `r` have the same subtree there. */
  lemma AtSame(fs: Tree, gs: Tree, r: Path)
    requires forall q :: Within(q, r) ==> (q in fs <==> q in gs) && (q in fs ==> fs[q] == gs[q])
    ensures At(fs, r) == At(gs, r)
  {
    forall rel ensures rel in At(fs, r) <==> rel in At(gs, r) {
      AtKey(fs, r, rel);
      AtKey(gs, r, rel);
      assert Within(r + rel, r);
    }
    forall rel | rel in At(fs, r) ensures At(fs, r)[rel] == At(gs, r)[rel] {
      AtKey(fs, r, rel);
      AtKey(gs, r, rel);
      assert Within(r + rel, r);
    }
  }

  /** Two places above the same path are nested. */
  lemma CommonPath(a: Path, b: Path, q: Path)
    requires Within(q, a) && Within(q, b)
    ensures !Apart(a, b)
  {
    assert a == q[..|a|] && b == q[..|b|];
    if |a| <= |b| {
      assert a == b[..|a|];
    } else {
      assert b == a[..|b|];
    }
  }

  lemma AtPutApart(fs: Tree, r: Path, t: Tree, b: Path)
    requires Apart(r, b)
    ensures At(Put(fs, r, t), b) == At(fs, b)
  {
    forall q | Within(q, b)
      ensures (q in Put(fs, r, t) <==> q in fs) && (q in fs ==> Put(fs, r, t)[q] == fs[q])
    {
      if Within(q, r) {
        CommonPath(r, b, q);
      }
      PutKey(fs, r, t, q);
    }
    AtSame(Put(fs, r, t), fs, b);
  }

  lemma WithoutIsPut(fs: Tree, r: Path)
    ensures Without(fs, r) == Put(fs, r, map[])
  {
    assert Grafted(r, map[]) == map[];
  }

  /** A rename between separate places moves the subtree and touches nothing else. */
  lemma MovedAt(fs: Tree, a: Path, b: Path)
    requires Apart(a, b)
    ensures At(Moved(fs, a, b), b) == At(fs, a) && At(Moved(fs, a, b), a) == map[]
    ensures forall c :: Apart(a, c) && Apart(b, c) ==> At(Moved(fs, a, b), c) == At(fs, c)
  {
    var mid := Without(fs, a);
    WithoutIsPut(fs, a);
    AtPut(mid, b, At(fs, a));
    AtPut(fs, a, map[]);
    AtPutApart(mid, b, At(fs, a), a);
    forall c | Apart(a, c) && Apart(b, c) ensures At(Moved(fs, a, b), c) == At(fs, c) {
      AtPutApart(mid, b, At(fs, a), c);
      AtPutApart(fs, a, map[], c);
    }
  }

  /** Outside a set of places, two trees agree. */
  ghost predicate SameOutside(fs: Tree, gs: Tree, places: set<Path>) {
    forall q :: (forall p :: p in places ==> !Within(q, p)) ==>
      (q in fs <==> q in gs) && (q in fs ==> fs[q] == gs[q])
  }

  lemma PutOutside(fs: Tree, r: Path, t: Tree, places: set<Path>)
    requires r in places
    ensures SameOutside(fs, Put(fs, r, t), places)
  {
    forall q | forall p :: p in places ==> !Within(q, p)
      ensures (q in fs <==> q in Put(fs, r, t)) && (q in fs ==> fs[q] == Put(fs, r, t)[q])
    {
      PutKey(fs, r, t, q);
    }
  }

  lemma MovedOutside(fs: Tree, a: Path, b: Path, places: set<Path>)
    requires a in places && b in places
    ensures SameOutside(fs, Moved(fs, a, b), places)
  {
    WithoutIsPut(fs, a);
    PutOutside(fs, a, map[], places);
    PutOutside(Without(fs, a), b, At(fs, a), places);
  }
}
