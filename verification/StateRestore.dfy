/**
 * `_restore_state_backup`: a staged swap of any number of directory roots, with
 * undo.  Every file operation may fail, any number of times.
 */
module StateRestore {
  import opened Names
  import opened FileTree
  import opened StateRoots

  /** One root to restore, with the generated sibling names its swap uses. */
  datatype Record = Record(root: Path, present: bool, backup: Tree,
                           temporary: Path, displaced: Path, quarantine: Path) {
    /** What the root must hold afterwards: its backup, or nothing. */
    function Target(): Tree {
      if present then backup else map[]
    }

    function Place(k: Slot): Path {
      match k
      case Root => root
      case Temporary => temporary
      case Displaced => displaced
      case Quarantine => quarantine
    }
  }

  datatype Slot = Root | Temporary | Displaced | Quarantine

  /** What the four places of one record hold. */
  datatype Cell = Cell(root: Tree, temporary: Tree, displaced: Tree, quarantine: Tree) {
    function Get(k: Slot): Tree {
      match k
      case Root => root
      case Temporary => temporary
      case Displaced => displaced
      case Quarantine => quarantine
    }

    function Set(k: Slot, t: Tree): Cell {
      match k
      case Root => this.(root := t)
      case Temporary => this.(temporary := t)
      case Displaced => this.(displaced := t)
      case Quarantine => this.(quarantine := t)
    }
  }

  /** All places of all records are pairwise non-nested. */
  ghost predicate Separate(rs: seq<Record>) {
    forall i, j, k, l :: 0 <= i < |rs| && 0 <= j < |rs| && (i != j || k != l) ==>
      Apart(rs[i].Place(k), rs[j].Place(l))
  }

  ghost predicate Backed(rs: seq<Record>) {
    forall i :: 0 <= i < |rs| && rs[i].present ==> rs[i].backup != map[]
  }

  ghost function Places(rs: seq<Record>): set<Path> {
    set i, k: Slot | 0 <= i < |rs| :: rs[i].Place(k)
  }

  ghost function CellOf(fs: Tree, r: Record): Cell {
    Cell(At(fs, r.root), At(fs, r.temporary), At(fs, r.displaced), At(fs, r.quarantine))
  }

  ghost function Cells(fs: Tree, rs: seq<Record>): seq<Cell> {
    seq(|rs|, i requires 0 <= i < |rs| => CellOf(fs, rs[i]))
  }

  function MoveCell(c: Cell, k: Slot, l: Slot): Cell {
    c.Set(l, c.Get(k)).Set(k, map[])
  }

  lemma GetAt(fs: Tree, r: Record, k: Slot)
    ensures CellOf(fs, r).Get(k) == At(fs, r.Place(k))
  {
    hide At;
  }

  lemma PlaceIn(rs: seq<Record>, i: nat, k: Slot)
    requires i < |rs|
    ensures rs[i].Place(k) in Places(rs)
  {
  }

  lemma GetMoved(c: Cell, k: Slot, l: Slot, m: Slot)
    requires k != l
    ensures MoveCell(c, k, l).Get(m) == if m == l then c.Get(k) else if m == k then map[] else c.Get(m)
  {
  }

  lemma GetSet(c: Cell, k: Slot, t: Tree, m: Slot)
    ensures c.Set(k, t).Get(m) == if m == k then t else c.Get(m)
  {
  }

  lemma SameCell(a: Cell, b: Cell)
    requires forall m: Slot :: a.Get(m) == b.Get(m)
    ensures a == b
  {
    assert a.Get(Root) == b.Get(Root) && a.Get(Temporary) == b.Get(Temporary);
    assert a.Get(Displaced) == b.Get(Displaced) && a.Get(Quarantine) == b.Get(Quarantine);
  }

  lemma MovedCell(fs: Tree, rs: seq<Record>, i: nat, k: Slot, l: Slot, j: nat)
    requires Separate(rs) && i < |rs| && j < |rs| && k != l
    ensures CellOf(Moved(fs, rs[i].Place(k), rs[i].Place(l)), rs[j])
         == if j == i then MoveCell(CellOf(fs, rs[i]), k, l) else CellOf(fs, rs[j])
  {
    hide At, Moved, Cell.Get, Cell.Set, CellOf, Record.Place, Apart, MoveCell;
    var a, b := rs[i].Place(k), rs[i].Place(l);
    var gs := Moved(fs, a, b);
    var c := if j == i then MoveCell(CellOf(fs, rs[i]), k, l) else CellOf(fs, rs[j]);
    MovedAt(fs, a, b);
    forall m: Slot ensures CellOf(gs, rs[j]).Get(m) == c.Get(m) {
      GetAt(gs, rs[j], m);
      GetAt(fs, rs[j], m);
      GetAt(fs, rs[i], k);
      GetMoved(CellOf(fs, rs[i]), k, l, m);
      assert i != j || (m != k && m != l) ==> Apart(a, rs[j].Place(m)) && Apart(b, rs[j].Place(m));
    }
    SameCell(CellOf(gs, rs[j]), c);
  }

  /** Because the places are separate, a rename changes one record's cell and nothing else. */
  lemma MoveCells(fs: Tree, rs: seq<Record>, i: nat, k: Slot, l: Slot)
    requires Separate(rs) && i < |rs| && k != l
    ensures Cells(Moved(fs, rs[i].Place(k), rs[i].Place(l)), rs) ==
            Cells(fs, rs)[i := MoveCell(CellOf(fs, rs[i]), k, l)]
    ensures SameOutside(fs, Moved(fs, rs[i].Place(k), rs[i].Place(l)), Places(rs))
  {
    hide At, Moved, CellOf, Record.Place, MoveCell, Separate, SameOutside, Places;
    PlaceIn(rs, i, k);
    PlaceIn(rs, i, l);
    MovedOutside(fs, rs[i].Place(k), rs[i].Place(l), Places(rs));
    forall j | 0 <= j < |rs|
      ensures CellOf(Moved(fs, rs[i].Place(k), rs[i].Place(l)), rs[j])
           == if j == i then MoveCell(CellOf(fs, rs[i]), k, l) else CellOf(fs, rs[j])
    {
      MovedCell(fs, rs, i, k, l, j);
    }
  }

  lemma PutCell(fs: Tree, rs: seq<Record>, i: nat, k: Slot, t: Tree, j: nat)
    requires Separate(rs) && i < |rs| && j < |rs|
    ensures CellOf(Put(fs, rs[i].Place(k), t), rs[j])
         == if j == i then CellOf(fs, rs[i]).Set(k, t) else CellOf(fs, rs[j])
  {
    hide At, Put, Cell.Get, Cell.Set, CellOf, Record.Place, Apart;
    var a := rs[i].Place(k);
    var gs := Put(fs, a, t);
    var c := if j == i then CellOf(fs, rs[i]).Set(k, t) else CellOf(fs, rs[j]);
    AtPut(fs, a, t);
    forall m: Slot ensures CellOf(gs, rs[j]).Get(m) == c.Get(m) {
      GetAt(gs, rs[j], m);
      GetAt(fs, rs[j], m);
      GetSet(CellOf(fs, rs[i]), k, t, m);
      if i != j || m != k {
        AtPutApart(fs, a, t, rs[j].Place(m));
      }
    }
    SameCell(CellOf(gs, rs[j]), c);
  }

  lemma PutCells(fs: Tree, rs: seq<Record>, i: nat, k: Slot, t: Tree)
    requires Separate(rs) && i < |rs|
    ensures Cells(Put(fs, rs[i].Place(k), t), rs) == Cells(fs, rs)[i := CellOf(fs, rs[i]).Set(k, t)]
    ensures SameOutside(fs, Put(fs, rs[i].Place(k), t), Places(rs))
  {
    hide At, Put, CellOf, Record.Place, Cell.Set, Separate, SameOutside, Places;
    PlaceIn(rs, i, k);
    PutOutside(fs, rs[i].Place(k), t, Places(rs));
    forall j | 0 <= j < |rs|
      ensures CellOf(Put(fs, rs[i].Place(k), t), rs[j])
           == if j == i then CellOf(fs, rs[i]).Set(k, t) else CellOf(fs, rs[j])
    {
      PutCell(fs, rs, i, k, t, j);
    }
  }

  /** Some operation between two clock readings fails. */
  ghost predicate AnyFault(fault: nat -> bool, from: nat, to: nat) {
    exists i: nat :: from <= i < to && fault(i)
  }

  lemma NoFault(fault: nat -> bool, a: nat)
    ensures !AnyFault(fault, a, a)
  {
  }

  lemma FaultsJoin(fault: nat -> bool, a: nat, b: nat, c: nat)
    requires a <= b <= c
    ensures AnyFault(fault, a, c) <==> AnyFault(fault, a, b) || AnyFault(fault, b, c)
  {
  }

  lemma FaultStep(fault: nat -> bool, a: nat)
    ensures AnyFault(fault, a, a + 1) <==> fault(a)
  {
  }

  /** What can be found to have failed: a rename between two slots of a record, or filling one. */
  datatype Op = Rename(record: nat, source: Slot, target: Slot) | Fill(record: nat, slot: Slot)

  /** A disk whose operations fail when the oracle says so; a failed copy or removal leaves debris. */
  class Disk {
    const rs: seq<Record>
    const fault: nat -> bool
    const debris: nat -> Tree
    var fs: Tree
    var clock: nat
    ghost var failed: set<Op>

    constructor (rs: seq<Record>, fs: Tree, fault: nat -> bool, debris: nat -> Tree)
      ensures this.rs == rs && this.fs == fs && this.fault == fault && this.debris == debris
    {
      this.rs, this.fs, this.clock, this.fault, this.debris := rs, fs, 0, fault, debris;
      failed := {};
    }

    ghost function View(): (cs: seq<Cell>)
      reads this
      ensures |cs| == |rs|
    {
      Cells(fs, rs)
    }

    /** `os.path.lexists` of one of the places. */
    method Exists(i: nat, k: Slot) returns (b: bool)
      requires i < |rs|
      ensures b <==> View()[i].Get(k) != map[]
    {
      GetAt(fs, rs[i], k);
      b := At(fs, rs[i].Place(k)) != map[];
    }

    /** A verification or an fsync: it raises or it does not. */
    method Check() returns (ok: bool)
      modifies this`clock
      ensures clock == old(clock) + 1 && ok == !fault(old(clock))
    {
      ok := !fault(clock);
      clock := clock + 1;
    }

    /** `os.replace` between two places of one record. */
    method Replace(i: nat, k: Slot, l: Slot) returns (ok: bool)
      requires Separate(rs) && i < |rs| && k != l
      modifies this
      ensures clock == old(clock) + 1 && ok == !fault(old(clock))
      ensures failed == if ok then old(failed) else old(failed) + {Rename(i, k, l)}
      ensures View() == if ok then old(View())[i := MoveCell(old(View())[i], k, l)] else old(View())
      ensures SameOutside(old(fs), fs, Places(rs))
    {
      hide Moved, MoveCell, CellOf, Separate, SameOutside, Places, Record.Place;
      SameOutsideSelf(fs, Places(rs));
      ok := !fault(clock);
      clock := clock + 1;
      if ok {
        MoveCells(fs, rs, i, k, l);
        fs := Moved(fs, rs[i].Place(k), rs[i].Place(l));
      } else {
        failed := failed + {Rename(i, k, l)};
      }
    }

    /** Copy a tree to a place, or remove what is there; failing leaves debris. */
    method Write(i: nat, k: Slot, t: Tree) returns (ok: bool)
      requires Separate(rs) && i < |rs|
      modifies this
      ensures clock == old(clock) + 1 && ok == !fault(old(clock))
      ensures failed == if ok then old(failed) else old(failed) + {Fill(i, k)}
      ensures exists u :: (ok ==> u == t) && View() == old(View())[i := old(View())[i].Set(k, u)]
      ensures SameOutside(old(fs), fs, Places(rs))
    {
      hide Put, Cell.Set, CellOf, Separate, SameOutside, Places, Record.Place;
      ok := !fault(clock);
      var u := if ok then t else debris(clock);
      clock := clock + 1;
      failed := if ok then failed else failed + {Fill(i, k)};
      PutCells(fs, rs, i, k, u);
      fs := Put(fs, rs[i].Place(k), u);
      assert (ok ==> u == t) && View() == old(View())[i := old(View())[i].Set(k, u)];
    }
  }

  lemma SameOutsideTransitive(a: Tree, b: Tree, c: Tree, places: set<Path>)
    requires SameOutside(a, b, places) && SameOutside(b, c, places)
    ensures SameOutside(a, c, places)
  {
    hide Within;
    forall q | forall p :: p in places ==> !Within(q, p)
      ensures (q in a <==> q in c) && (q in a ==> a[q] == c[q])
    {
    }
  }

  /** Before the call: the generated names are unused. */
  ghost predicate Fresh(c: Cell) {
    c.temporary == map[] && c.displaced == map[] && c.quarantine == map[]
  }

  /** The copy is in place next to the untouched root. */
  ghost predicate Staged(c0: Cell, c: Cell, r: Record) {
    c == c0.(temporary := r.Target())
  }

  /** Moved aside (`displaced` records whether there was anything to move), not yet replaced. */
  ghost predicate HalfSwapped(c0: Cell, c: Cell, r: Record, displaced: bool) {
    c == Cell(map[], r.Target(), c0.root, map[]) && (displaced <==> c0.root != map[])
  }

  ghost predicate Swapped(c0: Cell, c: Cell, r: Record, displaced: bool) {
    c == Cell(r.Target(), map[], c0.root, map[]) && (displaced <==> c0.root != map[])
  }

  /** First loop: verify each backup and copy it next to its root. */
  method StageAll(disk: Disk) returns (staged: nat, ok: bool)
    requires Separate(disk.rs) && forall i :: 0 <= i < |disk.rs| ==> Fresh(disk.View()[i])
    modifies disk
    ensures staged <= |disk.rs| && (ok ==> staged == |disk.rs|)
    ensures forall i :: 0 <= i < staged ==> Staged(old(disk.View())[i], disk.View()[i], disk.rs[i])
    ensures forall i :: staged < i < |disk.rs| ==> disk.View()[i] == old(disk.View())[i]
    ensures !ok && staged < |disk.rs| ==>
      exists t :: disk.View()[staged] == old(disk.View())[staged].(temporary := t)
    ensures old(disk.clock) <= disk.clock && (ok <==> !AnyFault(disk.fault, old(disk.clock), disk.clock))
    ensures forall op :: op in disk.failed ==> op in old(disk.failed) || Forward(op)
    ensures ok ==> disk.failed == old(disk.failed)
    ensures SameOutside(old(disk.fs), disk.fs, Places(disk.rs))
  {
    hide Cells, SameOutside, Separate, Places, AnyFault;
    ghost var cs0, fs0, start := disk.View(), disk.fs, disk.clock;
    SameOutsideSelf(fs0, Places(disk.rs));
    NoFault(disk.fault, start);
    staged, ok := 0, true;
    while staged < |disk.rs|
      invariant staged <= |disk.rs| && ok
      invariant start <= disk.clock && !AnyFault(disk.fault, start, disk.clock)
      invariant disk.failed == old(disk.failed)
      invariant forall i :: 0 <= i < staged ==> Staged(cs0[i], disk.View()[i], disk.rs[i])
      invariant forall i :: staged <= i < |disk.rs| ==> disk.View()[i] == cs0[i]
      invariant SameOutside(fs0, disk.fs, Places(disk.rs))
    {
      FaultStep(disk.fault, disk.clock);
      FaultsJoin(disk.fault, start, disk.clock, disk.clock + 1);
      ok := disk.Check();
      if !ok {
        assert disk.View()[staged] == cs0[staged].(temporary := cs0[staged].temporary);
        return;
      }
      if disk.rs[staged].present {
        ghost var fs := disk.fs;
        FaultStep(disk.fault, disk.clock);
        FaultsJoin(disk.fault, start, disk.clock, disk.clock + 1);
        ok := disk.Write(staged, Temporary, disk.rs[staged].backup);
        SameOutsideTransitive(fs0, fs, disk.fs, Places(disk.rs));
        if !ok {
          assert disk.View()[staged] == cs0[staged].(temporary := disk.View()[staged].temporary);
          return;
        }
      }
      staged := staged + 1;
    }
  }

  lemma SameOutsideSelf(a: Tree, places: set<Path>)
    ensures SameOutside(a, a, places)
  {
  }

  /** Second loop: move each root aside and its copy into place. */
  method SwitchAll(disk: Disk, ghost cs0: seq<Cell>) returns (switched: nat, displaced: seq<bool>, ok: bool)
    requires Separate(disk.rs) && Backed(disk.rs) && |cs0| == |disk.rs|
    requires forall i :: 0 <= i < |cs0| ==> Fresh(cs0[i]) && Staged(cs0[i], disk.View()[i], disk.rs[i])
    modifies disk
    ensures switched <= |disk.rs| == |displaced| && (ok ==> switched == |disk.rs|)
    ensures forall i :: 0 <= i < switched ==>
      Swapped(cs0[i], disk.View()[i], disk.rs[i], displaced[i])
      || (!ok && i == switched - 1 && HalfSwapped(cs0[i], disk.View()[i], disk.rs[i], displaced[i]))
    ensures forall i :: switched <= i < |cs0| ==>
      Staged(cs0[i], disk.View()[i], disk.rs[i]) && !displaced[i]
    ensures old(disk.clock) <= disk.clock && (ok <==> !AnyFault(disk.fault, old(disk.clock), disk.clock))
    ensures forall op :: op in disk.failed ==> op in old(disk.failed) || Forward(op)
    ensures SameOutside(old(disk.fs), disk.fs, Places(disk.rs))
  {
    hide Cells, SameOutside, Separate, Places, AnyFault;
    ghost var fs0, start := disk.fs, disk.clock;
    SameOutsideSelf(fs0, Places(disk.rs));
    NoFault(disk.fault, start);
    switched, ok := 0, true;
    displaced := seq(|disk.rs|, i => false);
    while switched < |disk.rs|
      invariant switched <= |disk.rs| == |displaced| && ok
      invariant start <= disk.clock && !AnyFault(disk.fault, start, disk.clock)
      invariant disk.failed == old(disk.failed)
      invariant forall i :: 0 <= i < switched ==> Swapped(cs0[i], disk.View()[i], disk.rs[i], displaced[i])
      invariant forall i :: switched <= i < |cs0| ==> Staged(cs0[i], disk.View()[i], disk.rs[i]) && !displaced[i]
      invariant SameOutside(fs0, disk.fs, Places(disk.rs))
    {
      var i := switched;
      ghost var fs := disk.fs;
      ghost var before := disk.clock;
      var moved, aside;
      ok, moved, aside := SwitchOne(disk, i, cs0[i]);
      FaultsJoin(disk.fault, start, before, disk.clock);
      SameOutsideTransitive(fs0, fs, disk.fs, Places(disk.rs));
      displaced := displaced[i := aside];
      if moved {
        switched := i + 1;
      }
      if !ok {
        return;
      }
    }
  }

  /**
   * One turn of the second loop; `moved` says that the stage's root has been
   * dealt with, `aside` that it was moved to its displaced name.
   */
  method SwitchOne(disk: Disk, i: nat, ghost c0: Cell) returns (ok: bool, moved: bool, aside: bool)
    requires Separate(disk.rs) && i < |disk.rs| && Fresh(c0) && Staged(c0, disk.View()[i], disk.rs[i])
    requires Backed(disk.rs)
    modifies disk
    ensures forall j :: 0 <= j < |disk.rs| && j != i ==> disk.View()[j] == old(disk.View())[j]
    ensures ok ==> moved && Swapped(c0, disk.View()[i], disk.rs[i], aside)
    ensures !ok && moved ==>
      Swapped(c0, disk.View()[i], disk.rs[i], aside) || HalfSwapped(c0, disk.View()[i], disk.rs[i], aside)
    ensures !moved ==> Staged(c0, disk.View()[i], disk.rs[i]) && !aside
    ensures old(disk.clock) <= disk.clock && (ok <==> !AnyFault(disk.fault, old(disk.clock), disk.clock))
    ensures forall op :: op in disk.failed ==> op in old(disk.failed) || Forward(op)
    ensures ok ==> disk.failed == old(disk.failed)
    ensures SameOutside(old(disk.fs), disk.fs, Places(disk.rs))
  {
    hide Cells, SameOutside, Separate, Places, AnyFault;
    ghost var fs0, start := disk.fs, disk.clock;
    SameOutsideSelf(fs0, Places(disk.rs));
    moved, aside := false, false;
    FaultStep(disk.fault, start);
    ok := disk.Check();
    if !ok {
      return;
    }
    var present := disk.Exists(i, Root);
    if present {
      FaultStep(disk.fault, disk.clock);
      FaultsJoin(disk.fault, start, disk.clock, disk.clock + 1);
      ok := disk.Replace(i, Root, Displaced);
      if !ok {
        return;
      }
      aside := true;
    }
    assert HalfSwapped(c0, disk.View()[i], disk.rs[i], aside);
    moved := true;
    if disk.rs[i].present {
      ghost var fs := disk.fs;
      FaultStep(disk.fault, disk.clock);
      FaultsJoin(disk.fault, start, disk.clock, disk.clock + 1);
      ok := disk.Replace(i, Temporary, Root);
      SameOutsideTransitive(fs0, fs, disk.fs, Places(disk.rs));
      if !ok {
        return;
      }
    }
    assert Swapped(c0, disk.View()[i], disk.rs[i], aside);
    FaultStep(disk.fault, disk.clock);
    FaultsJoin(disk.fault, start, disk.clock, disk.clock + 1);
    ok := disk.Check();
  }

  /** Putting a stage's new tree aside, and moving its original back. */
  function SetAside(i: nat): Op {
    Rename(i, Root, Quarantine)
  }

  function MoveBack(i: nat): Op {
    Rename(i, Displaced, Root)
  }

  /** The operations of the two forward loops. */
  predicate Forward(op: Op) {
    match op
    case Rename(i, k, l) => op != SetAside(i) && op != MoveBack(i)
    case Fill(i, k) => k == Temporary
  }

  /** What undoing one stage leaves: `c` is the stage's cell before, `displaced` its flag. */
  ghost predicate StageUndone(c: Cell, d: Cell, i: nat, failed: set<Op>, displaced: bool, still: bool) {
    if SetAside(i) in failed then c.root != map[] && d == c && still == displaced
    else if MoveBack(i) in failed then d.root == map[] && d.displaced == c.displaced && still && displaced
    else d.root == c.displaced && !still
  }

  /** Undo one switched stage: reject what is at the root, bring the original back. */
  method UndoStage(disk: Disk, i: nat, displaced: bool) returns (ok: bool, still: bool)
    requires Separate(disk.rs) && i < |disk.rs|
    requires displaced <==> disk.View()[i].displaced != map[]
    requires SetAside(i) !in disk.failed && MoveBack(i) !in disk.failed
    modifies disk
    ensures forall j :: 0 <= j < |disk.rs| && j != i ==> disk.View()[j] == old(disk.View())[j]
    ensures StageUndone(old(disk.View())[i], disk.View()[i], i, disk.failed, displaced, still)
    ensures var c, present := old(disk.clock), old(disk.View())[i].root != map[];
      && (SetAside(i) in disk.failed <==> present && disk.fault(c))
      && (MoveBack(i) in disk.failed <==>
          displaced && if present then !disk.fault(c) && disk.fault(c + 1) else disk.fault(c))
    ensures ok ==> SetAside(i) !in disk.failed && MoveBack(i) !in disk.failed
    ensures old(disk.clock) <= disk.clock && (ok <==> !AnyFault(disk.fault, old(disk.clock), disk.clock))
    ensures forall op :: op !in {SetAside(i), MoveBack(i), Fill(i, Quarantine)} ==>
      (op in disk.failed <==> op in old(disk.failed))
    ensures SameOutside(old(disk.fs), disk.fs, Places(disk.rs))
  {
    hide Cells, SameOutside, Separate, Places, AnyFault;
    ghost var fs0, fs, start := disk.fs, disk.fs, disk.clock;
    SameOutsideSelf(fs0, Places(disk.rs));
    NoFault(disk.fault, start);
    ok, still := true, displaced;
    var present := disk.Exists(i, Root);
    if present {
      FaultStep(disk.fault, start);
      ok := disk.Replace(i, Root, Quarantine);
      if !ok {
        return;
      }
    }
    if displaced {
      fs := disk.fs;
      FaultStep(disk.fault, disk.clock);
      FaultsJoin(disk.fault, start, disk.clock, disk.clock + 1);
      ok := disk.Replace(i, Displaced, Root);
      SameOutsideTransitive(fs0, fs, disk.fs, Places(disk.rs));
      if !ok {
        return;
      }
      still := false;
    }
    fs := disk.fs;
    FaultStep(disk.fault, disk.clock);
    FaultsJoin(disk.fault, start, disk.clock, disk.clock + 1);
    ok := disk.Write(i, Quarantine, map[]);
    SameOutsideTransitive(fs0, fs, disk.fs, Places(disk.rs));
    if ok {
      FaultStep(disk.fault, disk.clock);
      FaultsJoin(disk.fault, start, disk.clock, disk.clock + 1);
      ok := disk.Check();
    }
  }

  /** What undo needs of a switched stage: its original is moved aside. */
  ghost predicate Aside(c0: Cell, c: Cell, displaced: bool) {
    c.displaced == c0.root && (displaced <==> c0.root != map[])
  }

  /** No rename back has failed yet for the first `k` records. */
  ghost predicate Untried(failed: set<Op>, k: nat) {
    forall i :: 0 <= i < k ==> SetAside(i) !in failed && MoveBack(i) !in failed
  }

  /** Undo the switched stages, last first; a failure is noted and the loop goes on. */
  method UndoAll(disk: Disk, switched: nat, flags: seq<bool>, ghost cs0: seq<Cell>)
    returns (displaced: seq<bool>, incomplete: bool)
    requires Separate(disk.rs) && switched <= |disk.rs| == |flags| == |cs0|
    requires forall i :: 0 <= i < switched ==> Aside(cs0[i], disk.View()[i], flags[i])
    requires forall i :: switched <= i < |cs0| ==> disk.View()[i].root == cs0[i].root && !flags[i]
    requires Untried(disk.failed, |cs0|)
    modifies disk
    ensures |displaced| == |disk.rs|
    ensures forall i :: 0 <= i < switched ==>
      StageUndone(old(disk.View())[i], disk.View()[i], i, disk.failed, flags[i], displaced[i])
    ensures forall i :: switched <= i < |cs0| ==>
      disk.View()[i] == old(disk.View())[i] && !displaced[i]
      && SetAside(i) !in disk.failed && MoveBack(i) !in disk.failed
    ensures !incomplete ==> Untried(disk.failed, |cs0|)
    ensures old(disk.clock) <= disk.clock && (incomplete <==> AnyFault(disk.fault, old(disk.clock), disk.clock))
    ensures SameOutside(old(disk.fs), disk.fs, Places(disk.rs))
  {
    hide Cells, SameOutside, Separate, Places, AnyFault, StageUndone, SetAside, MoveBack;
    ghost var fs0, cs, start := disk.fs, disk.View(), disk.clock;
    SameOutsideSelf(fs0, Places(disk.rs));
    NoFault(disk.fault, start);
    displaced, incomplete := flags, false;
    var k := switched;
    while k > 0
      invariant 0 <= k <= switched && |displaced| == |disk.rs|
      invariant forall i :: 0 <= i < k || switched <= i < |cs0| ==> disk.View()[i] == cs[i] && displaced[i] == flags[i]
      invariant forall i :: k <= i < switched ==>
        StageUndone(cs[i], disk.View()[i], i, disk.failed, flags[i], displaced[i])
      invariant Untried(disk.failed, k)
      invariant !incomplete ==> Untried(disk.failed, |cs0|)
      invariant forall i :: switched <= i < |cs0| ==> SetAside(i) !in disk.failed && MoveBack(i) !in disk.failed
      invariant start <= disk.clock && (incomplete <==> AnyFault(disk.fault, start, disk.clock))
      invariant SameOutside(fs0, disk.fs, Places(disk.rs))
    {
      k := k - 1;
      ghost var fs, before, was := disk.fs, disk.clock, disk.failed;
      var ok, still := UndoStage(disk, k, displaced[k]);
      SameOutsideTransitive(fs0, fs, disk.fs, Places(disk.rs));
      FaultsJoin(disk.fault, start, before, disk.clock);
      ghost var undone := displaced;
      displaced := displaced[k := still];
      incomplete := incomplete || !ok;
      forall i | 0 <= i < |cs0| && i != k
        ensures SetAside(i) in disk.failed <==> SetAside(i) in was
        ensures MoveBack(i) in disk.failed <==> MoveBack(i) in was
      {
        OtherRecord(i, k);
      }
      forall i | k < i < switched
        ensures StageUndone(cs[i], disk.View()[i], i, disk.failed, flags[i], displaced[i])
      {
        SameStage(cs[i], disk.View()[i], i, was, disk.failed, flags[i], undone[i]);
      }
    }
  }

  lemma OtherRecord(i: nat, k: nat)
    requires i != k
    ensures SetAside(i) !in {SetAside(k), MoveBack(k), Fill(k, Quarantine)}
    ensures MoveBack(i) !in {SetAside(k), MoveBack(k), Fill(k, Quarantine)}
  {
  }

  lemma SameStage(c: Cell, d: Cell, i: nat, was: set<Op>, failed: set<Op>, displaced: bool, still: bool)
    requires StageUndone(c, d, i, was, displaced, still)
    requires SetAside(i) in failed <==> SetAside(i) in was
    requires MoveBack(i) in failed <==> MoveBack(i) in was
    ensures StageUndone(c, d, i, failed, displaced, still)
  {
  }

  /** Remove leftover copies and originals of the staged records; roots are not touched. */
  method Sweep(disk: Disk, staged: nat, displaced: seq<bool>) returns (ok: bool)
    requires Separate(disk.rs) && staged <= |disk.rs| == |displaced|
    modifies disk
    ensures forall i :: 0 <= i < |disk.rs| ==> disk.View()[i].root == old(disk.View())[i].root
    ensures forall i :: 0 <= i < staged && displaced[i] && Fill(i, Displaced) !in disk.failed ==>
      disk.View()[i].displaced == map[]
    ensures old(disk.clock) <= disk.clock && (ok <==> !AnyFault(disk.fault, old(disk.clock), disk.clock))
    ensures ok ==> disk.failed == old(disk.failed)
    ensures forall op: Op :: op.Rename? ==> (op in disk.failed <==> op in old(disk.failed))
    ensures SameOutside(old(disk.fs), disk.fs, Places(disk.rs))
  {
    hide Cells, SameOutside, Separate, Places, AnyFault;
    ghost var fs0, cs, start := disk.fs, disk.View(), disk.clock;
    SameOutsideSelf(fs0, Places(disk.rs));
    NoFault(disk.fault, start);
    ok := true;
    var i := 0;
    while i < staged
      invariant i <= staged
      invariant forall j :: 0 <= j < |disk.rs| ==> disk.View()[j].root == cs[j].root
      invariant forall j :: 0 <= j < i && displaced[j] && Fill(j, Displaced) !in disk.failed ==>
        disk.View()[j].displaced == map[]
      invariant start <= disk.clock && (ok <==> !AnyFault(disk.fault, start, disk.clock))
      invariant ok ==> disk.failed == old(disk.failed)
      invariant forall op: Op :: op.Rename? ==> (op in disk.failed <==> op in old(disk.failed))
      invariant SameOutside(fs0, disk.fs, Places(disk.rs))
    {
      ghost var fs, before := disk.fs, disk.clock;
      var done := SweepOne(disk, i, displaced[i]);
      SameOutsideTransitive(fs0, fs, disk.fs, Places(disk.rs));
      FaultsJoin(disk.fault, start, before, disk.clock);
      ok := ok && done;
      i := i + 1;
    }
  }

  method SweepOne(disk: Disk, i: nat, displaced: bool) returns (ok: bool)
    requires Separate(disk.rs) && i < |disk.rs|
    modifies disk
    ensures disk.View()[i].root == old(disk.View())[i].root
    ensures forall j :: 0 <= j < |disk.rs| && j != i ==> disk.View()[j] == old(disk.View())[j]
    ensures displaced && Fill(i, Displaced) !in disk.failed ==> disk.View()[i].displaced == map[]
    ensures old(disk.clock) <= disk.clock && (ok <==> !AnyFault(disk.fault, old(disk.clock), disk.clock))
    ensures ok ==> disk.failed == old(disk.failed)
    ensures forall op :: op !in {Fill(i, Temporary), Fill(i, Displaced)} ==>
      (op in disk.failed <==> op in old(disk.failed))
    ensures old(disk.failed) <= disk.failed
    ensures SameOutside(old(disk.fs), disk.fs, Places(disk.rs))
  {
    hide Cells, SameOutside, Separate, Places, AnyFault;
    ghost var fs0, start := disk.fs, disk.clock;
    SameOutsideSelf(fs0, Places(disk.rs));
    NoFault(disk.fault, start);
    ok := true;
    var leftover := disk.Exists(i, Temporary);
    if leftover {
      FaultStep(disk.fault, start);
      ok := disk.Write(i, Temporary, map[]);
    }
    if displaced {
      ghost var fs := disk.fs;
      FaultStep(disk.fault, disk.clock);
      FaultsJoin(disk.fault, start, disk.clock, disk.clock + 1);
      var done := disk.Write(i, Displaced, map[]);
      SameOutsideTransitive(fs0, fs, disk.fs, Places(disk.rs));
      ok := ok && done;
    }
  }

  /** The final verifications: manifests of every root, databases, identities. */
  method VerifyAll(disk: Disk) returns (ok: bool)
    modifies disk`clock
    ensures old(disk.clock) <= disk.clock && (ok <==> !AnyFault(disk.fault, old(disk.clock), disk.clock))
  {
    hide AnyFault;
    ok := true;
    var i := 0;
    ghost var start := disk.clock;
    NoFault(disk.fault, start);
    while i < |disk.rs| + 2 && ok
      invariant start <= disk.clock && (ok <==> !AnyFault(disk.fault, start, disk.clock))
    {
      FaultStep(disk.fault, disk.clock);
      FaultsJoin(disk.fault, start, disk.clock, disk.clock + 1);
      ok := disk.Check();
      i := i + 1;
    }
  }

  datatype Outcome = Restored | Raised(incomplete: bool)

  /** At most one operation between two clock readings fails. */
  ghost predicate AtMostOneFault(fault: nat -> bool, from: nat, to: nat) {
    forall i, j :: from <= i < j < to ==> !(fault(i) && fault(j))
  }

  /**
   * What a call that raised leaves of one root whose original was `original`: the
   * original, unless one of the two renames that bring it back failed; then the
   * new tree or nothing, and the displaced original has been deleted.
   */
  ghost predicate AfterRaise(r: Record, original: Tree, c: Cell, i: nat, failed: set<Op>) {
    if SetAside(i) in failed then c.root == r.Target() && Deleted(original, c, i, failed)
    else if MoveBack(i) in failed then original != map[] && c.root == map[] && Deleted(original, c, i, failed)
    else c.root == original
  }

  ghost predicate Deleted(original: Tree, c: Cell, i: nat, failed: set<Op>) {
    original != map[] && Fill(i, Displaced) !in failed ==> c.displaced == map[]
  }

  /**
   * Unless the deletion itself fails too, the original survives a raised call, at
   * its root or at its displaced name, exactly when it could be moved back or
   * never differed from the backup.
   */
  lemma OriginalSurvives(r: Record, original: Tree, c: Cell, i: nat, failed: set<Op>)
    requires AfterRaise(r, original, c, i, failed) && original != map[] && Fill(i, Displaced) !in failed
    ensures c.root == original || c.displaced == original <==>
            if SetAside(i) in failed then r.Target() == original else MoveBack(i) !in failed
  {
  }

  /**
   * The loss is real: when a root has been moved aside and moving it back fails,
   * the sweep that follows deletes it, and nothing of it is left in either place.
   */
  method FailedMoveBackDeletes(disk: Disk)
    requires |disk.rs| == 1 && Separate(disk.rs) && disk.failed == {}
    requires disk.View()[0].root == map[] && disk.View()[0].displaced != map[]
    requires disk.fault(disk.clock) && forall i :: i > disk.clock ==> !disk.fault(i)
    modifies disk
    ensures disk.View()[0].root == map[] && disk.View()[0].displaced == map[]
  {
    hide Cells, SameOutside, Separate, Places;
    var ok, still := UndoStage(disk, 0, true);
    var _ := Sweep(disk, 1, [still]);
  }

  lemma ForwardUntried(failed: set<Op>, k: nat)
    requires forall op :: op in failed ==> Forward(op)
    ensures Untried(failed, k)
  {
  }

  lemma TwoFaults(fault: nat -> bool, a: nat, b: nat, c: nat)
    requires a <= b <= c && AnyFault(fault, a, b) && AnyFault(fault, b, c)
    ensures !AtMostOneFault(fault, a, c)
  {
    var i: nat :| a <= i < b && fault(i);
    var j: nat :| b <= j < c && fault(j);
  }

  /** One record's way through undo and sweep. */
  lemma RaisedStage(r: Record, c0: Cell, mid: Cell, undone: Cell, last: Cell, i: nat,
                    was: set<Op>, failed: set<Op>, switched: bool, flag: bool, still: bool)
    requires switched ==> Swapped(c0, mid, r, flag) || HalfSwapped(c0, mid, r, flag)
    requires switched ==> StageUndone(mid, undone, i, was, flag, still)
    requires !switched ==> undone == mid && mid.root == c0.root && SetAside(i) !in was && MoveBack(i) !in was
    requires last.root == undone.root && (still && Fill(i, Displaced) !in failed ==> last.displaced == map[])
    requires SetAside(i) in failed <==> SetAside(i) in was
    requires MoveBack(i) in failed <==> MoveBack(i) in was
    ensures AfterRaise(r, c0.root, last, i, failed)
    ensures SetAside(i) !in was && MoveBack(i) !in was ==> last.root == c0.root
  {
  }

  /**
   * Either every root holds exactly its backup, or the call raises; unless it
   * reports an incomplete restoration, every root is then exactly as before.
   * `turn` is the clock when the forward part ended: the call succeeds exactly
   * when nothing failed before it, and is incomplete exactly when something
   * failed both before and after it.  Nothing outside the roots and their
   * generated siblings is touched.
   */
  method RestoreStateBackup(disk: Disk) returns (outcome: Outcome, ghost turn: nat)
    requires Separate(disk.rs) && Backed(disk.rs)
    requires forall i :: 0 <= i < |disk.rs| ==> Fresh(disk.View()[i])
    modifies disk
    ensures outcome.Restored? ==>
      forall i :: 0 <= i < |disk.rs| ==> At(disk.fs, disk.rs[i].root) == disk.rs[i].Target()
    ensures outcome == Raised(false) ==>
      forall i :: 0 <= i < |disk.rs| ==> At(disk.fs, disk.rs[i].root) == old(At(disk.fs, disk.rs[i].root))
    ensures outcome.Raised? ==> forall i :: 0 <= i < |disk.rs| ==>
      AfterRaise(disk.rs[i], old(disk.View())[i].root, disk.View()[i], i, disk.failed)
    ensures old(disk.clock) <= turn <= disk.clock
    ensures outcome.Restored? <==> !AnyFault(disk.fault, old(disk.clock), turn)
    ensures outcome.Raised? ==> (outcome.incomplete <==> AnyFault(disk.fault, turn, disk.clock))
    ensures !AnyFault(disk.fault, old(disk.clock), disk.clock) ==> outcome.Restored?
    ensures AtMostOneFault(disk.fault, old(disk.clock), disk.clock) ==> outcome != Raised(true)
    ensures SameOutside(old(disk.fs), disk.fs, Places(disk.rs))
  {
    hide At, SameOutside, Separate, Places, AnyFault, AtMostOneFault, StageUndone, AfterRaise;
    ghost var cs0, fs0, fs, start := disk.View(), disk.fs, disk.fs, disk.clock;
    disk.failed := {};
    var staged, ok := StageAll(disk);
    var switched, displaced := 0, seq(|disk.rs|, i => false);
    if ok {
      fs := disk.fs;
      ghost var before := disk.clock;
      switched, displaced, ok := SwitchAll(disk, cs0);
      SameOutsideTransitive(fs0, fs, disk.fs, Places(disk.rs));
      FaultsJoin(disk.fault, start, before, disk.clock);
    }
    assert forall op :: op in disk.failed ==> Forward(op);
    ForwardUntried(disk.failed, |cs0|);
    if ok {
      ghost var before := disk.clock;
      ok := VerifyAll(disk);
      FaultsJoin(disk.fault, start, before, disk.clock);
    }
    fs := disk.fs;
    turn := disk.clock;
    if ok {
      // Only a warning is printed when a displaced original cannot be removed.
      var _ := Sweep(disk, staged, displaced);
      SameOutsideTransitive(fs0, fs, disk.fs, Places(disk.rs));
      FaultsJoin(disk.fault, start, turn, disk.clock);
      assert forall i :: 0 <= i < |disk.rs| ==> disk.View()[i].root == disk.rs[i].Target();
      return Restored, turn;
    }
    ghost var mid := disk.View();
    var flags := displaced;
    var incomplete;
    displaced, incomplete := UndoAll(disk, switched, displaced, cs0);
    SameOutsideTransitive(fs0, fs, disk.fs, Places(disk.rs));
    fs := disk.fs;
    ghost var undone, failed, before := disk.View(), disk.failed, disk.clock;
    var swept := Sweep(disk, staged, displaced);
    SameOutsideTransitive(fs0, fs, disk.fs, Places(disk.rs));
    FaultsJoin(disk.fault, turn, before, disk.clock);
    FaultsJoin(disk.fault, start, turn, disk.clock);
    if AnyFault(disk.fault, turn, disk.clock) {
      TwoFaults(disk.fault, start, turn, disk.clock);
    }
    forall i | 0 <= i < |disk.rs|
      ensures AfterRaise(disk.rs[i], cs0[i].root, disk.View()[i], i, disk.failed)
      ensures SetAside(i) !in failed && MoveBack(i) !in failed ==> disk.View()[i].root == cs0[i].root
    {
      RaisedStage(disk.rs[i], cs0[i], mid[i], undone[i], disk.View()[i], i, failed, disk.failed,
                  i < switched, flags[i], displaced[i]);
    }
    return Raised(incomplete || !swept), turn;
  }

  /**
   * Non-nested roots and unused generated names make all places separate: this
   * is what `_state_roots` provides by refusing nested roots.
   */
  lemma GeneratedSeparate(rs: seq<Record>, roots: seq<StateRoot>, gen: (nat, Slot) -> Name)
    requires |rs| == |roots| && PairwiseApart(roots)
    requires forall i :: 0 <= i < |rs| ==> rs[i].root == roots[i].path && roots[i].path != []
    requires forall i, k :: 0 <= i < |rs| && k != Root ==> rs[i].Place(k) == Sibling(roots[i].path, gen(i, k))
    requires forall i, j, k :: 0 <= i < |rs| && 0 <= j < |rs| && k != Root ==> gen(i, k) !in roots[j].path
    requires forall i, j, k, l :: 0 <= i < |rs| && 0 <= j < |rs| && k != Root && l != Root && (i != j || k != l) ==>
      gen(i, k) != gen(j, l)
    ensures Separate(rs)
  {
    hide Sibling, Apart;
    forall i, j, k, l | 0 <= i < |rs| && 0 <= j < |rs| && (i != j || k != l)
      ensures Apart(rs[i].Place(k), rs[j].Place(l))
    {
      assert roots[i] in roots && roots[j] in roots;
      if k != Root && l != Root {
        SiblingsApart(roots[i].path, roots[j].path, gen(i, k), gen(j, l));
      } else if k != Root {
        SiblingApart(roots, roots[i], roots[j], gen(i, k));
      } else if l != Root {
        SiblingApart(roots, roots[j], roots[i], gen(j, l));
        ApartSymmetric(rs[j].Place(l), rs[i].Place(k));
      } else {
        RootsApart(roots, i, j);
      }
    }
  }

  lemma RootsApart(roots: seq<StateRoot>, i: nat, j: nat)
    requires PairwiseApart(roots) && i < |roots| && j < |roots| && i != j
    ensures Apart(roots[i].path, roots[j].path)
  {
    if j < i {
      ApartSymmetric(roots[j].path, roots[i].path);
    }
  }

  lemma ApartSymmetric(a: Path, b: Path)
    requires Apart(a, b)
    ensures Apart(b, a)
  {
  }
}
