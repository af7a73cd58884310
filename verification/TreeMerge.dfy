/**
 * `_merge_tree_atomically`: bring a legacy tree into a canonical one without
 * overwriting anything, as one swap of the destination directory.
 */
module TreeMerge {
  import opened FileTree
  import opened StateRestore

  /** No path is a file in one tree and something else in the other. */
  ghost predicate Compatible(a: Tree, b: Tree) {
    forall p :: p in a && p in b ==> a[p] == b[p]
  }

  datatype Merge = Union(tree: Tree) | Conflict

  function MergeOne(a: Tree, b: Tree): Merge {
    if forall p :: p in a && p in b ==> a[p] == b[p] then Union(a + b) else Conflict
  }

  /** `_migrate_legacy_home_state` on one destination: merge each source in turn. */
  function MergeAll(dest: Tree, sources: seq<Tree>): Merge
    decreases |sources|
  {
    if sources == [] then Union(dest)
    else match MergeOne(dest, sources[0])
      case Conflict => Conflict
      case Union(t) => MergeAll(t, sources[1..])
  }

  /** All trees agree with each other wherever they meet. */
  ghost predicate AllCompatible(dest: Tree, sources: seq<Tree>) {
    && (forall s :: s in sources ==> Compatible(dest, s))
    && (forall s, t :: s in sources && t in sources ==> Compatible(s, t))
  }

  /** `p` holds `n` in the destination or in some source. */
  ghost predicate Holds(dest: Tree, sources: seq<Tree>, p: Path, n: Node) {
    (p in dest && dest[p] == n) || exists s :: s in sources && p in s && s[p] == n
  }

  /**
   * Merging is a partial union: it succeeds exactly when no two trees conflict,
   * and then holds exactly what the trees hold, with nothing overwritten.
   */
  lemma {:induction false} MergeAllExact(dest: Tree, sources: seq<Tree>)
    ensures MergeAll(dest, sources).Union? <==> AllCompatible(dest, sources)
    ensures MergeAll(dest, sources).Union? ==> forall p, n ::
      (p in MergeAll(dest, sources).tree && MergeAll(dest, sources).tree[p] == n) <==> Holds(dest, sources, p, n)
    decreases |sources|
  {
    if sources != [] {
      var head, rest := sources[0], sources[1..];
      assert sources == [head] + rest;
      assert head in sources;
      if Compatible(dest, head) {
        var t := dest + head;
        MergeAllExact(t, rest);
        AbsorbCompatible(dest, head, rest);
        if MergeAll(t, rest).Union? {
          forall p, n ensures Holds(t, rest, p, n) <==> Holds(dest, sources, p, n) {
            AbsorbHolds(dest, head, rest, p, n);
          }
        }
      }
    }
  }

  lemma AbsorbHolds(dest: Tree, head: Tree, rest: seq<Tree>, p: Path, n: Node)
    requires Compatible(dest, head)
    ensures Holds(dest + head, rest, p, n) <==> Holds(dest, [head] + rest, p, n)
  {
    var sources := [head] + rest;
    assert head in sources && forall s :: s in rest ==> s in sources;
    if Holds(dest, sources, p, n) && !(p in dest && dest[p] == n) {
      var s :| s in sources && p in s && s[p] == n;
      assert s == head || s in rest;
    }
  }

  lemma AbsorbCompatible(dest: Tree, head: Tree, rest: seq<Tree>)
    requires Compatible(dest, head)
    ensures AllCompatible(dest + head, rest) <==> AllCompatible(dest, [head] + rest)
  {
    var sources, t := [head] + rest, dest + head;
    assert forall s :: s in sources <==> s == head || s in rest;
    if AllCompatible(t, rest) {
      forall s | s in rest ensures Compatible(dest, s) && Compatible(head, s) && Compatible(s, head) {
        assert Compatible(t, s);
        assert forall p :: p in dest ==> p in t && t[p] == dest[p];
        assert forall p :: p in head ==> p in t && t[p] == head[p];
      }
    }
    if AllCompatible(dest, sources) {
      forall s | s in rest ensures Compatible(t, s) {
        assert Compatible(dest, s) && Compatible(head, s);
      }
    }
  }

  /** The order of the legacy trees does not matter: same success, same contents. */
  lemma MergeOrderIrrelevant(dest: Tree, sources: seq<Tree>, other: seq<Tree>)
    requires multiset(sources) == multiset(other)
    ensures MergeAll(dest, sources) == MergeAll(dest, other)
  {
    forall s: Tree ensures s in sources <==> s in other {
      assert s in sources <==> s in multiset(sources);
      assert s in other <==> s in multiset(other);
    }
    MergeAllExact(dest, sources);
    MergeAllExact(dest, other);
    assert AllCompatible(dest, sources) <==> AllCompatible(dest, other);
    if MergeAll(dest, sources).Union? {
      var a, b := MergeAll(dest, sources).tree, MergeAll(dest, other).tree;
      forall p, n ensures Holds(dest, sources, p, n) <==> Holds(dest, other, p, n) {
      }
      forall p ensures (p in a <==> p in b) && (p in a ==> a[p] == b[p]) {
        if p in a {
          assert Holds(dest, sources, p, a[p]);
        }
        if p in b {
          assert Holds(dest, other, p, b[p]);
        }
      }
      assert a == b;
    }
  }

  /** Merge the listed source entries into the copy of the destination. */
  method MergeEntries(dest: Tree, source: Tree, entries: seq<Path>) returns (r: Merge)
    requires forall p :: p in entries <==> p in source
    ensures r == MergeOne(dest, source)
  {
    var slot := dest;
    var i := 0;
    while i < |entries|
      invariant i <= |entries|
      invariant forall j :: 0 <= j < i && entries[j] in dest ==> dest[entries[j]] == source[entries[j]]
      invariant forall p :: p in slot <==> p in dest || p in entries[..i]
      invariant forall p :: p in slot ==> slot[p] == if p in dest then dest[p] else source[p]
    {
      var p := entries[i];
      assert p in entries;
      assert entries[..i + 1] == entries[..i] + [p];
      if p in slot {
        if slot[p] != source[p] {
          assert p in dest;
          return Conflict;
        }
      } else {
        slot := slot[p := source[p]];
      }
      i := i + 1;
    }
    assert entries[..i] == entries;
    assert forall p :: p in dest && p in source ==> dest[p] == source[p] by {
      forall p | p in dest && p in source ensures dest[p] == source[p] {
        var j :| 0 <= j < |entries| && entries[j] == p;
      }
    }
    assert slot == dest + source;
    return Union(slot);
  }

  datatype MergeOutcome = Merged | Refused | Failed

  /**
   * The faults that defeat the merge's own undo, counting operations from
   * `clock`: after the swap has begun, one operation fails and then so does a
   * rename that would bring the original back.  `had` says that there was a
   * destination, `grows` that the merge adds something to it.
   */
  predicate UndoDefeated(fault: nat -> bool, clock: nat, had: bool, grows: bool) {
    !fault(clock) && SwapDefeated(fault, clock + 1, had, grows)
  }

  /** The same, counted from the first rename. */
  predicate SwapDefeated(fault: nat -> bool, clock: nat, had: bool, grows: bool) {
    !fault(clock) &&
    if !had then fault(clock + 1) && fault(clock + 2)
    else if fault(clock + 1) then fault(clock + 2)
    else fault(clock + 2) && (if fault(clock + 3) then grows else fault(clock + 4))
  }

  predicate SwapFaults(fault: nat -> bool, clock: nat, had: bool) {
    fault(clock) || fault(clock + 1) || (had && fault(clock + 2))
  }

  /**
   * What a defeated undo leaves: the merged tree or nothing at the root, and no
   * original, since the `finally` block deletes the displaced one, unless that
   * deletion fails as well.
   */
  ghost predicate Lost(c: Cell, original: Tree, merged: Tree, failed: set<Op>) {
    && (c.root == map[] || c.root == merged)
    && (original != map[] && Fill(0, Displaced) !in failed ==> c.displaced == map[])
  }

  /** An operation of the merge proper fails: the copy, the renames or the final sync. */
  predicate MergeFaults(fault: nat -> bool, clock: nat, had: bool) {
    fault(clock) || SwapFaults(fault, clock + 1, had)
  }

  /** A failed rename followed by a failed rename back does. */
  lemma TwoFaultsDefeat(clock: nat, grows: bool)
    ensures UndoDefeated(n => n == clock + 2 || n == clock + 3, clock, true, grows)
  {
  }

  /** A single fault never does. */
  lemma OneFaultIsUndone(fault: nat -> bool, clock: nat, had: bool, grows: bool)
    requires forall i, j :: clock <= i < j ==> !(fault(i) && fault(j))
    ensures !UndoDefeated(fault, clock, had, grows)
  {
    if fault(clock + 3) {
      assert !fault(clock + 2) && !fault(clock + 4) && !fault(clock + 5);
    }
  }

  /**
   * The whole merge on disk, for the single record `disk.rs[0]`: the destination
   * ends as the union, or, after a conflict, as it was; after failing operations
   * it is as it was exactly when they do not defeat the undo.
   */
  method MergeTreeAtomically(disk: Disk, source: Tree, entries: seq<Path>) returns (outcome: MergeOutcome)
    requires |disk.rs| == 1 && Separate(disk.rs) && Fresh(disk.View()[0])
    requires source != map[] && forall p :: p in entries <==> p in source
    modifies disk
    ensures outcome == Merged ==>
      MergeOne(old(disk.View())[0].root, source).Union?
      && disk.View()[0].root == MergeOne(old(disk.View())[0].root, source).tree
    ensures outcome == Refused <==> MergeOne(old(disk.View())[0].root, source) == Conflict
    ensures outcome == Refused ==> disk.View()[0].root == old(disk.View())[0].root
    ensures outcome == Failed <==>
      MergeOne(old(disk.View())[0].root, source).Union? &&
      MergeFaults(disk.fault, old(disk.clock), old(disk.View())[0].root != map[])
    ensures outcome == Failed ==>
      var original := old(disk.View())[0].root;
      MergeOne(original, source).Union? &&
      (disk.View()[0].root == original <==>
       !UndoDefeated(disk.fault, old(disk.clock), original != map[], MergeOne(original, source).tree != original))
    ensures outcome == Failed && disk.View()[0].root != old(disk.View())[0].root ==>
      Lost(disk.View()[0], old(disk.View())[0].root, MergeOne(old(disk.View())[0].root, source).tree, disk.failed)
    ensures SameOutside(old(disk.fs), disk.fs, Places(disk.rs))
  {
    hide At, SameOutside, Separate, Places, Cells;
    ghost var fs0, original, c0 := disk.fs, disk.View()[0].root, disk.clock;
    var had := disk.Exists(0, Root);
    var content := Content(disk);
    var r := MergeEntries(content, source, entries);
    if r.Conflict? {
      SameOutsideSelf(fs0, Places(disk.rs));
      return Refused;
    }
    ghost var fs := disk.fs;
    SameOutsideSelf(fs, Places(disk.rs));
    var ok := disk.Write(0, Temporary, r.tree);
    if !ok {
      Discard(disk, fs0, false);
      return Failed;
    }
    ok := SwapIn(disk, fs0, had, original, r.tree);
    return if ok then Merged else Failed;
  }

  /** Move the destination aside and the merged copy into its place, undoing on failure. */
  method SwapIn(disk: Disk, ghost fs0: Tree, had: bool, ghost original: Tree, ghost merged: Tree) returns (ok: bool)
    requires |disk.rs| == 1 && Separate(disk.rs) && SameOutside(fs0, disk.fs, Places(disk.rs))
    requires disk.View()[0] == Cell(original, merged, map[], map[]) && merged != map[]
    requires had <==> original != map[]
    modifies disk
    ensures ok <==> !SwapFaults(disk.fault, old(disk.clock), had)
    ensures ok ==> disk.View()[0].root == merged
    ensures !ok ==> (disk.View()[0].root == original <==>
                     !SwapDefeated(disk.fault, old(disk.clock), had, merged != original))
    ensures !ok && disk.View()[0].root != original ==> Lost(disk.View()[0], original, merged, disk.failed)
    ensures SameOutside(fs0, disk.fs, Places(disk.rs))
  {
    hide At, SameOutside, Separate, Places, Cells;
    ghost var fs := disk.fs;
    if had {
      ok := disk.Replace(0, Root, Displaced);
      SameOutsideTransitive(fs0, fs, disk.fs, Places(disk.rs));
      if !ok {
        Discard(disk, fs0, false);
        return;
      }
    }
    fs := disk.fs;
    ok := disk.Replace(0, Temporary, Root);
    SameOutsideTransitive(fs0, fs, disk.fs, Places(disk.rs));
    if !ok {
      PutBack(disk, fs0, had, original);
      return;
    }
    ok := disk.Check();
    if !ok {
      var back := Reject(disk, fs0, had, original);
      return;
    }
    Discard(disk, fs0, had);
  }

  method Content(disk: Disk) returns (t: Tree)
    requires |disk.rs| == 1
    ensures t == disk.View()[0].root
  {
    t := At(disk.fs, disk.rs[0].root);
  }

  /** The merged copy could not be moved in: move the original back, then clean up. */
  method PutBack(disk: Disk, ghost fs0: Tree, had: bool, ghost original: Tree)
    requires |disk.rs| == 1 && Separate(disk.rs) && SameOutside(fs0, disk.fs, Places(disk.rs))
    requires disk.View()[0].root == map[] && disk.View()[0].displaced == original
    requires had <==> original != map[]
    modifies disk
    ensures disk.View()[0].root == original <==> !(had && disk.fault(old(disk.clock)))
    ensures had && disk.fault(old(disk.clock)) ==> disk.View()[0].root == map[]
    ensures had && disk.fault(old(disk.clock)) && Fill(0, Displaced) !in disk.failed ==>
      disk.View()[0].displaced == map[]
    ensures SameOutside(fs0, disk.fs, Places(disk.rs))
  {
    hide At, SameOutside, Separate, Places, Cells;
    ghost var fs := disk.fs;
    var back := true;
    if had {
      back := disk.Replace(0, Displaced, Root);
      SameOutsideTransitive(fs0, fs, disk.fs, Places(disk.rs));
    }
    Discard(disk, fs0, had && !back);
  }

  /** Put the merged tree aside and the original back, after a failed sync. */
  method Reject(disk: Disk, ghost fs0: Tree, had: bool, ghost original: Tree) returns (back: bool)
    requires |disk.rs| == 1 && Separate(disk.rs) && SameOutside(fs0, disk.fs, Places(disk.rs))
    requires disk.View()[0].root != map[] && disk.View()[0].displaced == original
    requires had <==> original != map[]
    modifies disk
    ensures back <==> !disk.fault(old(disk.clock)) && (had ==> !disk.fault(old(disk.clock) + 1))
    ensures back ==> disk.View()[0].root == original
    ensures !back ==> disk.View()[0].root == if disk.fault(old(disk.clock)) then old(disk.View())[0].root else map[]
    ensures !back && had && Fill(0, Displaced) !in disk.failed ==> disk.View()[0].displaced == map[]
    ensures SameOutside(fs0, disk.fs, Places(disk.rs))
  {
    hide At, SameOutside, Separate, Places, Cells;
    ghost var fs := disk.fs;
    back := disk.Replace(0, Root, Quarantine);
    SameOutsideTransitive(fs0, fs, disk.fs, Places(disk.rs));
    if back && had {
      fs := disk.fs;
      back := disk.Replace(0, Displaced, Root);
      SameOutsideTransitive(fs0, fs, disk.fs, Places(disk.rs));
    }
    if back {
      fs := disk.fs;
      var _ := disk.Write(0, Quarantine, map[]);
      SameOutsideTransitive(fs0, fs, disk.fs, Places(disk.rs));
    }
    Discard(disk, fs0, had && !back);
  }

  /** The `finally` block: remove the slot, and a displaced tree still recorded. */
  method Discard(disk: Disk, ghost fs0: Tree, displaced: bool)
    requires |disk.rs| == 1 && Separate(disk.rs) && SameOutside(fs0, disk.fs, Places(disk.rs))
    modifies disk
    ensures disk.View()[0].root == old(disk.View())[0].root
    ensures displaced && Fill(0, Displaced) !in disk.failed ==> disk.View()[0].displaced == map[]
    ensures SameOutside(fs0, disk.fs, Places(disk.rs))
  {
    hide At, SameOutside, Separate, Places, Cells;
    var present := disk.Exists(0, Temporary);
    if present {
      ghost var fs := disk.fs;
      var _ := disk.Write(0, Temporary, map[]);
      SameOutsideTransitive(fs0, fs, disk.fs, Places(disk.rs));
    }
    if displaced {
      ghost var fs := disk.fs;
      var _ := disk.Write(0, Displaced, map[]);
      SameOutsideTransitive(fs0, fs, disk.fs, Places(disk.rs));
    }
  }
}
