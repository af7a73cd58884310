/**
 * The installer's journaled transactions and their power-loss recovery.  A
 * transaction is a sequence of durable steps; a crash keeps any prefix of them.
 */
module Transaction {
  import opened Names
  import opened Prelude

  /** `install.json`, kept inside the configuration root. */
  datatype Manifest = Manifest(release: Name, previous: Option<Name>, features: set<Name>, legacyBackup: Option<Name>)

  /** The content of a state root; only the configuration root carries a manifest. */
  datatype Content = Content(manifest: Option<Manifest>, data: int)

  const ETC := Name("etc")

  /** The durable installation: release pointer, managed files, state roots. */
  datatype Live = Live(current: Option<Name>, files: map<Name, int>, roots: map<Name, Content>) {
    function InstalledManifest(): Option<Manifest> {
      if ETC in roots then roots[ETC].manifest else None
    }
  }

  function Lookup<V>(m: map<Name, V>, k: Name): Option<V> {
    if k in m then Some(m[k]) else None
  }

  function Store<V>(m: map<Name, V>, k: Name, v: Option<V>): map<Name, V> {
    match v
    case None => m - {k}
    case Some(x) => m[k := x]
  }

  datatype Saved<V> = Saved(key: Name, value: Option<V>)

  /** A transaction backup: file snapshots, root copies, and the recorded features. */
  datatype Backup = Backup(files: seq<Saved<int>>, roots: seq<Saved<Content>>, features: set<Name>)

  datatype State = Preparing | BackedUp | Switching | Complete | RolledBack | Recovered

  datatype Journal = Journal(state: State, previous: Option<Name>, candidate: Name,
                             backup: Option<Name>, removeCandidate: bool) {
    predicate Terminal() {
      state == Complete || state == RolledBack || state == Recovered
    }
  }

  datatype World = World(live: Live, releases: set<Name>, journal: Option<Journal>, backups: map<Name, Backup>)

  /** One durable mutation. */
  datatype Step =
    | WriteJournal(journal: Journal)
    | CreateRelease(release: Name)
    | RemoveRelease(release: Name)
    | SaveBackup(id: Name, files: seq<Name>, roots: seq<Name>, features: set<Name>)
    | SetCurrent(target: Option<Name>)
    | SetFile(path: Name, bytes: Option<int>)
    | SetRoot(root: Name, content: Option<Content>)

  function SaveAll<V>(m: map<Name, V>, keys: seq<Name>): (s: seq<Saved<V>>)
    ensures |s| == |keys| && forall i :: 0 <= i < |s| ==> s[i] == Saved(keys[i], Lookup(m, keys[i]))
  {
    seq(|keys|, i requires 0 <= i < |keys| => Saved(keys[i], Lookup(m, keys[i])))
  }

  function Do(w: World, step: Step): World {
    match step
    case WriteJournal(j) => w.(journal := Some(j))
    case CreateRelease(r) => w.(releases := w.releases + {r})
    case RemoveRelease(r) => w.(releases := w.releases - {r})
    case SaveBackup(id, files, roots, features) =>
      w.(backups := w.backups[id := Backup(SaveAll(w.live.files, files), SaveAll(w.live.roots, roots), features)])
    case SetCurrent(target) => w.(live := w.live.(current := target))
    case SetFile(path, bytes) => w.(live := w.live.(files := Store(w.live.files, path, bytes)))
    case SetRoot(root, content) => w.(live := w.live.(roots := Store(w.live.roots, root, content)))
  }

  function DoAll(w: World, steps: seq<Step>): World
    decreases |steps|
  {
    if steps == [] then w else DoAll(Do(w, steps[0]), steps[1..])
  }

  lemma {:induction false} DoAllConcat(w: World, a: seq<Step>, b: seq<Step>)
    ensures DoAll(w, a + b) == DoAll(DoAll(w, a), b)
    decreases |a|
  {
    if a == [] {
      assert a + b == b;
    } else {
      assert (a + b)[0] == a[0] && (a + b)[1..] == a[1..] + b;
      DoAllConcat(Do(w, a[0]), a[1..], b);
    }
  }

  // ---------------------------------------------------------------- transactions

  /**
   * What apply, rollback and legacy rollback have in common.  `early` and `late`
   * are the mutations before and after the journal says "switching"; a rollback
   * never writes that state, so for it `late` follows "backed_up" directly.
   */
  datatype Txn = Txn(previous: Option<Name>, candidate: Name, creates: bool, switches: bool,
                     id: Name, files: seq<Name>, roots: seq<Name>, features: set<Name>,
                     early: seq<Step>, late: seq<Step>)
  {
    function Note(s: State, backed: bool): Step {
      WriteJournal(Journal(s, previous, candidate, if backed then Some(id) else None, creates))
    }

    /** Everything up to and including the durable backup pointer. */
    function Opening(): seq<Step> {
      [Note(Preparing, false)] + (if creates then [CreateRelease(candidate)] else [])
      + [SaveBackup(id, files, roots, features), Note(BackedUp, true)]
    }

    function Body(): seq<Step> {
      early + (if switches then [Note(Switching, true)] else []) + late
    }

    function Program(): seq<Step> {
      Opening() + Body() + [Note(Complete, true)]
    }

    /** A mutation whose place was saved in the backup. */
    predicate Covers(step: Step) {
      match step
      case SetCurrent(_) => true
      case SetFile(path, _) => path in files
      case SetRoot(root, _) => root in roots
      case _ => false
    }

    predicate CoversAll(steps: seq<Step>) {
      forall i :: 0 <= i < |steps| ==> Covers(steps[i])
    }

    /** The state apply and rollback start from, under the maintenance lock and after recovery. */
    ghost predicate Begins(w: World) {
      && (w.journal.Some? ==> w.journal.value.Terminal())
      && w.live.current == previous
      && id !in w.backups
      && (creates ==> candidate !in w.releases)
      && CoversAll(early) && CoversAll(late)
    }
  }

  /** A step that may be found half done after a crash inside recovery or in-process undo. */
  predicate Tears(t: Txn, step: Step) {
    t.Covers(step) || (t.creates && step == RemoveRelease(t.candidate))
  }

  /** The backup holds what `w0` had at every place that may have changed since. */
  ghost predicate Restorable(w0: World, t: Txn, w: World) {
    && t.id in w.backups
    && w.backups[t.id] == Backup(SaveAll(w0.live.files, t.files), SaveAll(w0.live.roots, t.roots), t.features)
    && w.releases - {t.candidate} == w0.releases - {t.candidate}
    && (!t.creates ==> w.releases == w0.releases)
    && (forall f :: f !in t.files ==> Lookup(w.live.files, f) == Lookup(w0.live.files, f))
    && (forall r :: r !in t.roots ==> Lookup(w.live.roots, r) == Lookup(w0.live.roots, r))
  }

  /** The world after a crash once the backup pointer is durable. */
  ghost predicate Torn(w0: World, t: Txn, w: World) {
    && w.journal.Some? && w.journal.value.state in {BackedUp, Switching}
    && w.journal.value == Journal(w.journal.value.state, t.previous, t.candidate, Some(t.id), t.creates)
    && Restorable(w0, t, w)
  }

  lemma TearKeeps(w0: World, t: Txn, w: World, step: Step)
    requires Torn(w0, t, w) && Tears(t, step)
    ensures Torn(w0, t, Do(w, step))
  {
  }

  lemma {:induction false} TearAllKeeps(w0: World, t: Txn, w: World, steps: seq<Step>)
    requires Torn(w0, t, w) && forall i :: 0 <= i < |steps| ==> Tears(t, steps[i])
    ensures Torn(w0, t, DoAll(w, steps))
    decreases |steps|
  {
    if steps != [] {
      TearKeeps(w0, t, w, steps[0]);
      hide Torn, Do;
      TearAllKeeps(w0, t, Do(w, steps[0]), steps[1..]);
    }
  }

  /** Steps of the body: covered mutations and the switching note. */
  lemma {:induction false} BodyKeeps(w0: World, t: Txn, w: World, steps: seq<Step>)
    requires Torn(w0, t, w)
    requires forall i :: 0 <= i < |steps| ==> Tears(t, steps[i]) || steps[i] == t.Note(Switching, true)
    ensures Torn(w0, t, DoAll(w, steps))
    decreases |steps|
  {
    if steps != [] {
      if Tears(t, steps[0]) {
        TearKeeps(w0, t, w, steps[0]);
      }
      assert Torn(w0, t, Do(w, steps[0]));
      hide Torn, Do;
      BodyKeeps(w0, t, Do(w, steps[0]), steps[1..]);
    }
  }

  /** Before the backup pointer is durable only the journal and the candidate release exist. */
  ghost predicate Opened(w0: World, t: Txn, w: World) {
    && w.live == w0.live
    && w.releases - {t.candidate} == w0.releases - {t.candidate}
    && (!t.creates ==> w.releases == w0.releases)
    && w.journal == Some(Journal(Preparing, t.previous, t.candidate, None, t.creates))
  }

  /**
   * Where a crash can leave the world: untouched, opened, torn after the backup,
   * or finished.
   */
  lemma CrashState(w0: World, t: Txn, k: nat)
    requires t.Begins(w0) && k <= |t.Program()|
    ensures k == 0 ==> DoAll(w0, t.Program()[..k]) == w0
    ensures 0 < k < |t.Opening()| ==> Opened(w0, t, DoAll(w0, t.Program()[..k]))
    ensures |t.Opening()| <= k < |t.Program()| ==> Torn(w0, t, DoAll(w0, t.Program()[..k]))
    ensures k == |t.Program()| ==>
      Torn(w0, t, DoAll(w0, t.Opening() + t.Body()))
      && DoAll(w0, t.Program()) == Do(DoAll(w0, t.Opening() + t.Body()), t.Note(Complete, true))
  {
    var open := t.Opening();
    if k < |open| {
      assert t.Program()[..k] == open[..k];
      OpeningPrefix(w0, t, k);
    } else {
      OpeningDone(w0, t);
      var n := if k < |t.Program()| then k - |open| else |t.Body()|;
      var part := t.Body()[..n];
      BodySteps(t);
      BodyKeeps(w0, t, DoAll(w0, open), part);
      DoAllConcat(w0, open, part);
      if k < |t.Program()| {
        assert t.Program()[..k] == open + part;
      } else {
        assert part == t.Body() && t.Program()[..k] == t.Program();
        DoAllConcat(w0, open + part, [t.Note(Complete, true)]);
        LastStep(DoAll(w0, open + part), t.Note(Complete, true));
      }
    }
  }

  lemma LastStep(w: World, step: Step)
    ensures DoAll(w, [step]) == Do(w, step)
  {
    assert [step][1..] == [];
  }

  lemma BodySteps(t: Txn)
    requires t.CoversAll(t.early) && t.CoversAll(t.late)
    ensures forall i :: 0 <= i < |t.Body()| ==> Tears(t, t.Body()[i]) || t.Body()[i] == t.Note(Switching, true)
  {
  }

  lemma OpeningPrefix(w0: World, t: Txn, k: nat)
    requires t.Begins(w0) && k < |t.Opening()|
    ensures k == 0 ==> DoAll(w0, t.Opening()[..k]) == w0
    ensures k > 0 ==> Opened(w0, t, DoAll(w0, t.Opening()[..k]))
  {
    if k > 0 {
      var s := t.Opening();
      assert s[..k] == [s[0]] + s[1..k];
      DoAllConcat(w0, [s[0]], s[1..k]);
      LastStep(w0, s[0]);
      var w1 := Do(w0, s[0]);
      assert w1.journal == Some(Journal(Preparing, t.previous, t.candidate, None, t.creates));
      assert Opened(w0, t, w1);
      hide Opened;
      assert forall i :: 0 < i < |s| - 1 ==> (t.creates && s[i] == CreateRelease(t.candidate)) || s[i].SaveBackup?;
      assert forall i :: 0 <= i < |s[1..k]| ==> s[1..k][i] == s[i + 1];
      OpenedKeeps(w0, t, w1, s[1..k]);
    }
  }

  lemma {:induction false} OpenedKeeps(w0: World, t: Txn, w: World, steps: seq<Step>)
    requires Opened(w0, t, w)
    requires forall i :: 0 <= i < |steps| ==>
      (t.creates && steps[i] == CreateRelease(t.candidate)) || steps[i].SaveBackup?
    ensures Opened(w0, t, DoAll(w, steps))
    decreases |steps|
  {
    if steps != [] {
      OpenedKeeps(w0, t, Do(w, steps[0]), steps[1..]);
    }
  }

  lemma OpeningDone(w0: World, t: Txn)
    requires t.Begins(w0)
    ensures Torn(w0, t, DoAll(w0, t.Opening()))
  {
    var s := t.Opening();
    var n := |s|;
    assert s == s[..n - 2] + [s[n - 2], s[n - 1]];
    OpeningPrefix(w0, t, n - 2);
    var w := DoAll(w0, s[..n - 2]);
    DoAllConcat(w0, s[..n - 2], [s[n - 2], s[n - 1]]);
    assert [s[n - 2], s[n - 1]][1..] == [s[n - 1]];
    LastStep(Do(w, s[n - 2]), s[n - 1]);
  }

  // ---------------------------------------------------------------- recovery

  function FileSteps(saved: seq<Saved<int>>): seq<Step> {
    seq(|saved|, i requires 0 <= i < |saved| => SetFile(saved[i].key, saved[i].value))
  }

  function RootSteps(saved: seq<Saved<Content>>): seq<Step> {
    seq(|saved|, i requires 0 <= i < |saved| => SetRoot(saved[i].key, saved[i].value))
  }

  /** `_restore_files`, `_restore_current`, `_restore_state_backup`, in that order. */
  function RestoreSteps(b: Backup, previous: Option<Name>): seq<Step> {
    FileSteps(b.files) + [SetCurrent(previous)] + RootSteps(b.roots)
  }

  /** Remove the interrupted candidate, then close the journal. */
  function ClosingSteps(j: Journal): seq<Step> {
    (if j.removeCandidate && Some(j.candidate) != j.previous then [RemoveRelease(j.candidate)] else [])
    + [WriteJournal(j.(state := Recovered))]
  }

  /** The restored manifest, pointer and recorded features must agree. */
  predicate Accepts(live: Live, previous: Option<Name>, features: set<Name>) {
    match live.InstalledManifest()
    case None => previous == None
    case Some(m) => previous == Some(m.release) && m.features == features
  }

  datatype Recovery = Finished(world: World) | Refused(world: World)

  /** `_recover_interrupted_transaction`. */
  function Recover(w: World): Recovery {
    if w.journal == None || w.journal.value.Terminal() then Finished(w)
    else
      var j := w.journal.value;
      match j.backup
      case None =>
        if j.state != Preparing || w.live.current != j.previous then Refused(w)
        else Finished(DoAll(w, ClosingSteps(j)))
      case Some(id) =>
        if id !in w.backups then Refused(w)
        else
          var r := DoAll(w, RestoreSteps(w.backups[id], j.previous));
          if Accepts(r.live, j.previous, w.backups[id].features) then Finished(DoAll(r, ClosingSteps(j)))
          else Refused(r)
  }

  lemma {:induction false} FileStepsRestore(w: World, m: map<Name, int>, keys: seq<Name>, n: nat)
    requires n <= |keys|
    requires forall f :: f !in keys[n..] ==> Lookup(w.live.files, f) == Lookup(m, f)
    ensures DoAll(w, FileSteps(SaveAll(m, keys))[n..]) == w.(live := w.live.(files := m))
    decreases |keys| - n
  {
    var steps := FileSteps(SaveAll(m, keys));
    if n == |keys| {
      assert steps[n..] == [] && keys[n..] == [];
      LookupEqual(w.live.files, m);
    } else {
      assert steps[n..] == [steps[n]] + steps[n + 1..];
      var v := Do(w, steps[n]);
      forall f | f !in keys[n + 1..] ensures Lookup(v.live.files, f) == Lookup(m, f) {
        assert keys[n..] == [keys[n]] + keys[n + 1..];
      }
      FileStepsRestore(v, m, keys, n + 1);
    }
  }

  lemma {:induction false} RootStepsRestore(w: World, m: map<Name, Content>, keys: seq<Name>, n: nat)
    requires n <= |keys|
    requires forall f :: f !in keys[n..] ==> Lookup(w.live.roots, f) == Lookup(m, f)
    ensures DoAll(w, RootSteps(SaveAll(m, keys))[n..]) == w.(live := w.live.(roots := m))
    decreases |keys| - n
  {
    var steps := RootSteps(SaveAll(m, keys));
    if n == |keys| {
      assert steps[n..] == [] && keys[n..] == [];
      LookupEqual(w.live.roots, m);
    } else {
      assert steps[n..] == [steps[n]] + steps[n + 1..];
      var v := Do(w, steps[n]);
      forall f | f !in keys[n + 1..] ensures Lookup(v.live.roots, f) == Lookup(m, f) {
        assert keys[n..] == [keys[n]] + keys[n + 1..];
      }
      RootStepsRestore(v, m, keys, n + 1);
    }
  }

  lemma LookupEqual<V>(a: map<Name, V>, b: map<Name, V>)
    requires forall k :: Lookup(a, k) == Lookup(b, k)
    ensures a == b
  {
    forall k ensures k in a <==> k in b {
      assert Lookup(a, k) == Lookup(b, k);
    }
    forall k | k in a ensures a[k] == b[k] {
      assert Lookup(a, k) == Lookup(b, k);
    }
  }

  /** Restoring puts the pointer, every managed file and every state root back. */
  lemma RestoreIsExact(w0: World, t: Txn, w: World)
    requires Torn(w0, t, w) && w0.live.current == t.previous
    ensures DoAll(w, RestoreSteps(w.backups[t.id], t.previous)) == w.(live := w0.live)
  {
    var files, roots := FileSteps(SaveAll(w0.live.files, t.files)), RootSteps(SaveAll(w0.live.roots, t.roots));
    assert t.files[0..] == t.files && t.roots[0..] == t.roots;
    assert files[0..] == files && roots[0..] == roots;
    FileStepsRestore(w, w0.live.files, t.files, 0);
    var v := w.(live := w.live.(files := w0.live.files));
    DoAllConcat(w, files + [SetCurrent(t.previous)], roots);
    DoAllConcat(w, files, [SetCurrent(t.previous)]);
    LastStep(v, SetCurrent(t.previous));
    var u := Do(v, SetCurrent(t.previous));
    RootStepsRestore(u, w0.live.roots, t.roots, 0);
  }

  lemma ClosingIs(w: World, j: Journal)
    ensures DoAll(w, ClosingSteps(j)) ==
      w.(releases := if j.removeCandidate && Some(j.candidate) != j.previous then w.releases - {j.candidate}
                     else w.releases,
         journal := Some(j.(state := Recovered)))
  {
    var note := WriteJournal(j.(state := Recovered));
    if j.removeCandidate && Some(j.candidate) != j.previous {
      assert ClosingSteps(j) == [RemoveRelease(j.candidate), note];
      assert [RemoveRelease(j.candidate), note][1..] == [note];
      LastStep(Do(w, RemoveRelease(j.candidate)), note);
    } else {
      assert ClosingSteps(j) == [note];
      LastStep(w, note);
    }
  }

  /** The installation is as it was, the candidate is gone, and the journal is closed. */
  ghost predicate Undone(w0: World, t: Txn, w: World) {
    && w.live == w0.live && w.releases == w0.releases
    && w.journal.Some? && w.journal.value.Terminal()
  }

  /** Recovery from any torn state, however it was torn. */
  lemma RecoverTorn(w0: World, t: Txn, w: World)
    requires t.Begins(w0) && Torn(w0, t, w) && (t.creates ==> Some(t.candidate) != t.previous)
    ensures Accepts(w0.live, t.previous, t.features) ==> Recover(w).Finished? && Undone(w0, t, Recover(w).world)
    ensures !Accepts(w0.live, t.previous, t.features) ==> Recover(w) == Refused(w.(live := w0.live))
  {
    RestoreIsExact(w0, t, w);
    hide RestoreSteps, DoAll;
    var r := w.(live := w0.live);
    ClosingIs(r, w.journal.value);
    assert t.creates ==> w0.releases - {t.candidate} == w0.releases;
  }

  lemma RecoverOpened(w0: World, t: Txn, w: World)
    requires t.Begins(w0) && Opened(w0, t, w) && (t.creates ==> Some(t.candidate) != t.previous)
    ensures Recover(w).Finished? && Undone(w0, t, Recover(w).world)
  {
    hide DoAll;
    ClosingIs(w, w.journal.value);
    assert t.creates ==> w0.releases - {t.candidate} == w0.releases;
  }

  /**
   * All or nothing.  Whatever step the power fails after, recovery either
   * restores the pointer, every managed file and every state root (and removes
   * the candidate), or, once the journal says complete, changes nothing.  It
   * finishes unless the manifest, the pointer and the recorded features of the
   * original installation disagree, and even then the installation is restored.
   */
  lemma AllOrNothing(w0: World, t: Txn, k: nat)
    requires t.Begins(w0) && k <= |t.Program()| && (t.creates ==> Some(t.candidate) != t.previous)
    ensures var w := DoAll(w0, t.Program()[..k]);
      && (k == 0 || k == |t.Program()| ==> Recover(w) == Finished(w))
      && (k == 0 ==> w.live == w0.live)
      && (k == |t.Program()| ==> w.live == DoAll(w0, t.Opening() + t.Body()).live)
      && (0 < k < |t.Program()| ==> Recover(w).world.live == w0.live)
      && (0 < k < |t.Opening()| ==> Recover(w).Finished? && Undone(w0, t, Recover(w).world))
      && (|t.Opening()| <= k < |t.Program()| ==>
            if Accepts(w0.live, t.previous, t.features)
            then Recover(w).Finished? && Undone(w0, t, Recover(w).world)
            else Recover(w).Refused?)
  {
    CrashState(w0, t, k);
    hide DoAll, Recover, Torn, Opened, Accepts, Txn.Body, Txn.Opening;
    var w := DoAll(w0, t.Program()[..k]);
    if k == 0 || k == |t.Program()| {
      assert t.Program()[..|t.Program()|] == t.Program();
      RecoverTerminal(w);
    } else if k < |t.Opening()| {
      RecoverOpened(w0, t, w);
    } else {
      RecoverTorn(w0, t, w);
    }
  }

  lemma RecoverTerminal(w: World)
    requires w.journal.Some? ==> w.journal.value.Terminal()
    ensures Recover(w) == Finished(w)
  {
  }

  lemma DoAllSnoc(w: World, steps: seq<Step>, i: nat)
    requires i < |steps|
    ensures DoAll(w, steps[..i + 1]) == Do(DoAll(w, steps[..i]), steps[i])
  {
    assert steps[..i + 1] == steps[..i] + [steps[i]];
    DoAllConcat(w, steps[..i], [steps[i]]);
    LastStep(DoAll(w, steps[..i]), steps[i]);
  }

  // ---------------------------------------------------------------- interrupted recoveries

  /** The durable steps recovery goes through from `w`; none when it refuses or has nothing to do. */
  function RecoverySteps(w: World): seq<Step> {
    if w.journal == None || w.journal.value.Terminal() then []
    else
      var j := w.journal.value;
      match j.backup
      case None => if j.state != Preparing || w.live.current != j.previous then [] else ClosingSteps(j)
      case Some(id) =>
        if id !in w.backups then []
        else
          var b := w.backups[id];
          RestoreSteps(b, j.previous)
          + if Accepts(DoAll(w, RestoreSteps(b, j.previous)).live, j.previous, b.features) then ClosingSteps(j) else []
  }

  lemma RecoverIsSteps(w: World)
    ensures Recover(w).world == DoAll(w, RecoverySteps(w))
  {
    if w.journal.Some? && !w.journal.value.Terminal() && w.journal.value.backup.Some? {
      var j := w.journal.value;
      if j.backup.value in w.backups {
        var restore := RestoreSteps(w.backups[j.backup.value], j.previous);
        hide RestoreSteps, ClosingSteps;
        DoAllConcat(w, restore, ClosingSteps(j));
        assert restore + [] == restore;
      }
    }
  }

  /**
   * Where a recovery stops: after `done` of its steps, and, when the next one
   * replaces a state root, perhaps in the middle of it, leaving `half` there.
   */
  datatype Cut = Cut(done: nat, half: Option<Option<Content>>)

  function Interrupt(w: World, cut: Cut): World {
    var steps := RecoverySteps(w);
    if cut.done >= |steps| then DoAll(w, steps)
    else
      var v := DoAll(w, steps[..cut.done]);
      if cut.half.Some? && steps[cut.done].SetRoot? then Do(v, SetRoot(steps[cut.done].root, cut.half.value)) else v
  }

  /** One recovery after the other, each stopped at its cut. */
  function Interrupted(w: World, cuts: seq<Cut>): World
    decreases |cuts|
  {
    if cuts == [] then w else Interrupted(Interrupt(w, cuts[0]), cuts[1..])
  }

  /** What a power loss during a transaction, or during a recovery from one, can leave. */
  ghost predicate Crashed(w0: World, t: Txn, w: World) {
    Opened(w0, t, w) || Torn(w0, t, w) || (w.journal.Some? ==> w.journal.value.Terminal())
  }

  /** Tearing steps leave the journal and the backups alone, and covered ones the releases too. */
  lemma {:induction false} TearFrame(t: Txn, w: World, steps: seq<Step>)
    requires forall i :: 0 <= i < |steps| ==> Tears(t, steps[i])
    ensures DoAll(w, steps).journal == w.journal && DoAll(w, steps).backups == w.backups
    ensures t.CoversAll(steps) ==> DoAll(w, steps).releases == w.releases
    decreases |steps|
  {
    if steps != [] {
      TearFrame(t, Do(w, steps[0]), steps[1..]);
    }
  }

  /** Recovery from a torn world, in full. */
  lemma RecoverTornIs(w0: World, t: Txn, w: World)
    requires t.Begins(w0) && Torn(w0, t, w) && (t.creates ==> Some(t.candidate) != t.previous)
    ensures Recover(w) ==
      if Accepts(w0.live, t.previous, t.features) then
        Finished(World(w0.live, w0.releases, Some(w.journal.value.(state := Recovered)), w.backups))
      else Refused(w.(live := w0.live))
  {
    RestoreIsExact(w0, t, w);
    hide RestoreSteps, DoAll;
    ClosingIs(w.(live := w0.live), w.journal.value);
    assert t.creates ==> w0.releases - {t.candidate} == w0.releases;
  }

  /**
   * Whatever recoveries and in-process undo attempts have torn, a final recovery
   * ends in the same world as one from before.
   */
  lemma TornRecoveryConverges(w0: World, t: Txn, w: World, torn: seq<Step>)
    requires t.Begins(w0) && Torn(w0, t, w) && (t.creates ==> Some(t.candidate) != t.previous)
    requires forall i :: 0 <= i < |torn| ==> Tears(t, torn[i])
    requires Accepts(w0.live, t.previous, t.features) || t.CoversAll(torn)
    ensures Torn(w0, t, DoAll(w, torn)) && Recover(DoAll(w, torn)) == Recover(w)
  {
    TearAllKeeps(w0, t, w, torn);
    TearFrame(t, w, torn);
    hide DoAll, Recover, Torn;
    RecoverTornIs(w0, t, w);
    RecoverTornIs(w0, t, DoAll(w, torn));
  }

  /** Recovery's steps from a torn world are tearing steps, up to the note that closes the journal. */
  lemma RecoveryTears(w0: World, t: Txn, w: World, i: nat)
    requires t.Begins(w0) && Torn(w0, t, w) && i < |RecoverySteps(w)|
    ensures Tears(t, RecoverySteps(w)[i])
      || (i == |RecoverySteps(w)| - 1 && RecoverySteps(w)[i] == WriteJournal(w.journal.value.(state := Recovered)))
    ensures !Accepts(w0.live, t.previous, t.features) ==> t.Covers(RecoverySteps(w)[i])
  {
    RestoreIsExact(w0, t, w);
    hide DoAll;
    var b := w.backups[t.id];
    if i < |RestoreSteps(b, t.previous)| {
      RestoreCovers(w0, t, w, i);
    }
  }

  lemma RestoreCovers(w0: World, t: Txn, w: World, i: nat)
    requires Torn(w0, t, w) && i < |RestoreSteps(w.backups[t.id], t.previous)|
    ensures t.Covers(RestoreSteps(w.backups[t.id], t.previous)[i])
  {
    var b := w.backups[t.id];
    if i < |b.files| {
      assert RestoreSteps(b, t.previous)[i] == SetFile(t.files[i], b.files[i].value);
    } else if i > |b.files| {
      var m := i - |b.files| - 1;
      assert RestoreSteps(b, t.previous)[i] == SetRoot(t.roots[m], b.roots[m].value);
    }
  }

  lemma InterruptTorn(w0: World, t: Txn, w: World, cut: Cut)
    requires t.Begins(w0) && Torn(w0, t, w) && (t.creates ==> Some(t.candidate) != t.previous)
    requires cut.done < |RecoverySteps(w)|
    ensures Torn(w0, t, Interrupt(w, cut)) && Recover(Interrupt(w, cut)) == Recover(w)
  {
    var steps := RecoverySteps(w);
    forall i | 0 <= i <= cut.done
      ensures i < cut.done || steps[i].SetRoot? ==> Tears(t, steps[i])
      ensures !Accepts(w0.live, t.previous, t.features) ==> t.Covers(steps[i])
    {
      RecoveryTears(w0, t, w, i);
    }
    var half := cut.half.Some? && steps[cut.done].SetRoot?;
    var torn := steps[..cut.done] + if half then [SetRoot(steps[cut.done].root, cut.half.value)] else [];
    hide Recover, RecoverySteps, Torn, Accepts;
    assert forall i :: 0 <= i < |torn| ==> Tears(t, torn[i]);
    assert !Accepts(w0.live, t.previous, t.features) ==> t.CoversAll(torn);
    TornRecoveryConverges(w0, t, w, torn);
    if half {
      DoAllConcat(w, steps[..cut.done], [torn[cut.done]]);
      LastStep(DoAll(w, steps[..cut.done]), torn[cut.done]);
    } else {
      assert torn == steps[..cut.done];
    }
  }

  lemma InterruptOpened(w0: World, t: Txn, w: World, cut: Cut)
    requires t.Begins(w0) && Opened(w0, t, w) && (t.creates ==> Some(t.candidate) != t.previous)
    requires cut.done < |RecoverySteps(w)|
    ensures Opened(w0, t, Interrupt(w, cut)) && Recover(Interrupt(w, cut)) == Recover(w)
  {
    var j, v := w.journal.value, Interrupt(w, cut);
    var steps := RecoverySteps(w);
    assert steps == ClosingSteps(j);
    if cut.done == 0 {
      assert steps[..0] == [];
    } else {
      assert steps[..1] == [RemoveRelease(t.candidate)];
      LastStep(w, steps[0]);
    }
    ClosingIs(w, j);
    ClosingIs(v, j);
  }

  /** A recovery that went through is not repeated, and one that refused refuses again. */
  lemma RecoverTwice(w0: World, t: Txn, w: World)
    requires t.Begins(w0) && Crashed(w0, t, w) && (t.creates ==> Some(t.candidate) != t.previous)
    ensures Crashed(w0, t, Recover(w).world) && Recover(Recover(w).world) == Recover(w)
  {
    if Torn(w0, t, w) {
      RecoverTornIs(w0, t, w);
      if !Accepts(w0.live, t.previous, t.features) {
        assert Torn(w0, t, w.(live := w0.live));
        hide Recover, Torn, Opened;
        RecoverTornIs(w0, t, w.(live := w0.live));
      }
    } else if Opened(w0, t, w) {
      ClosingIs(w, w.journal.value);
    }
  }

  lemma InterruptConverges(w0: World, t: Txn, w: World, cut: Cut)
    requires t.Begins(w0) && Crashed(w0, t, w) && (t.creates ==> Some(t.candidate) != t.previous)
    ensures Crashed(w0, t, Interrupt(w, cut)) && Recover(Interrupt(w, cut)) == Recover(w)
  {
    hide Recover, Torn, Opened, RecoverySteps, DoAll, Txn.Begins;
    RecoverIsSteps(w);
    if cut.done >= |RecoverySteps(w)| {
      RecoverTwice(w0, t, w);
    } else if Torn(w0, t, w) {
      InterruptTorn(w0, t, w, cut);
    } else if Opened(w0, t, w) {
      InterruptOpened(w0, t, w, cut);
    } else {
      NothingToRecover(w);
    }
  }

  lemma NothingToRecover(w: World)
    requires w.journal.Some? ==> w.journal.value.Terminal()
    ensures RecoverySteps(w) == []
  {
  }

  lemma {:induction false} InterruptedConverges(w0: World, t: Txn, w: World, cuts: seq<Cut>)
    requires t.Begins(w0) && Crashed(w0, t, w) && (t.creates ==> Some(t.candidate) != t.previous)
    ensures Recover(Interrupted(w, cuts)) == Recover(w)
    decreases |cuts|
  {
    if cuts != [] {
      InterruptConverges(w0, t, w, cuts[0]);
      hide Recover, Crashed, Interrupt, Txn.Begins;
      InterruptedConverges(w0, t, Interrupt(w, cuts[0]), cuts[1..]);
    }
  }

  /**
   * Recovery converges: after a power loss at any step of the transaction and any
   * number of recoveries that each stopped after any of their own steps, or in
   * the middle of a root swap, a full recovery ends in the very world that one
   * uninterrupted recovery would have reached.
   */
  lemma RecoveryConverges(w0: World, t: Txn, k: nat, cuts: seq<Cut>)
    requires t.Begins(w0) && k <= |t.Program()| && (t.creates ==> Some(t.candidate) != t.previous)
    ensures Recover(Interrupted(DoAll(w0, t.Program()[..k]), cuts)) == Recover(DoAll(w0, t.Program()[..k]))
  {
    CrashState(w0, t, k);
    assert t.Program()[..|t.Program()|] == t.Program();
    hide DoAll, Recover, Torn, Opened, Txn.Body, Txn.Opening, Interrupted;
    InterruptedConverges(w0, t, DoAll(w0, t.Program()[..k]), cuts);
  }

  /** The `except` block, when none of its own actions fails; apply restores the pointer only if `switched`. */
  function UndoSteps(t: Txn, b: Option<Backup>, switched: bool): seq<Step> {
    (if switched then [SetCurrent(t.previous)] else [])
    + (if b.Some? then FileSteps(b.value.files) + RootSteps(b.value.roots) else [])
    + UndoClosing(t, b.Some?)
  }

  function UndoClosing(t: Txn, backed: bool): seq<Step> {
    (if t.creates then [RemoveRelease(t.candidate)] else []) + [t.Note(RolledBack, backed)]
  }

  /**
   * A failure at any step after the backup, undone in process, leaves the
   * installation as it was exactly when the pointer is restored or never moved.
   */
  lemma InProcessUndo(w0: World, t: Txn, w: World, switched: bool)
    requires t.Begins(w0) && Restorable(w0, t, w)
    ensures Undone(w0, t, DoAll(w, UndoSteps(t, Some(w.backups[t.id]), switched))) <==>
            switched || w.live.current == t.previous
  {
    var files, roots := FileSteps(SaveAll(w0.live.files, t.files)), RootSteps(SaveAll(w0.live.roots, t.roots));
    var pointer := if switched then [SetCurrent(t.previous)] else [];
    var closing := UndoClosing(t, true);
    assert t.files[0..] == t.files && t.roots[0..] == t.roots;
    assert files[0..] == files && roots[0..] == roots;
    assert UndoSteps(t, Some(w.backups[t.id]), switched) == pointer + (files + (roots + closing));
    hide Do, UndoClosing, FileSteps, RootSteps;
    DoAllConcat(w, pointer, files + (roots + closing));
    PointerStep(w, t, switched);
    var a := DoAll(w, pointer);
    DoAllConcat(a, files, roots + closing);
    FileStepsRestore(a, w0.live.files, t.files, 0);
    var b := a.(live := a.live.(files := w0.live.files));
    DoAllConcat(b, roots, closing);
    RootStepsRestore(b, w0.live.roots, t.roots, 0);
    ClosesUndo(w0, t, b.(live := b.live.(roots := w0.live.roots)), true);
  }

  /** Before the backup there is nothing to restore. */
  lemma UndoBeforeBackup(w0: World, t: Txn, w: World)
    requires t.Begins(w0) && Opened(w0, t, w)
    ensures Undone(w0, t, DoAll(w, UndoSteps(t, None, false)))
  {
    assert UndoSteps(t, None, false) == UndoClosing(t, false);
    hide UndoClosing;
    ClosesUndo(w0, t, w, false);
  }

  lemma PointerStep(w: World, t: Txn, switched: bool)
    ensures DoAll(w, if switched then [SetCurrent(t.previous)] else []) ==
            w.(live := w.live.(current := if switched then t.previous else w.live.current))
  {
    if switched {
      LastStep(w, SetCurrent(t.previous));
    }
  }

  lemma UndoClosingIs(w: World, t: Txn, backed: bool)
    requires t.creates
    ensures DoAll(w, UndoClosing(t, backed)) == w.(releases := w.releases - {t.candidate},
      journal := Some(Journal(RolledBack, t.previous, t.candidate, if backed then Some(t.id) else None, true)))
  {
    assert UndoClosing(t, backed)[1..] == [t.Note(RolledBack, backed)];
    LastStep(Do(w, RemoveRelease(t.candidate)), t.Note(RolledBack, backed));
  }

  lemma ClosesUndo(w0: World, t: Txn, w: World, backed: bool)
    requires t.Begins(w0) && w.live == w0.live.(current := w.live.current)
    requires w.releases - {t.candidate} == w0.releases - {t.candidate}
    requires !t.creates ==> w.releases == w0.releases
    ensures Undone(w0, t, DoAll(w, UndoClosing(t, backed))) <==> w.live.current == t.previous
  {
    var closing, note := UndoClosing(t, backed), t.Note(RolledBack, backed);
    if t.creates {
      assert closing[1..] == [note];
      LastStep(Do(w, closing[0]), note);
      assert w0.releases - {t.candidate} == w0.releases;
    } else {
      assert closing == [note];
      LastStep(w, note);
    }
  }

  /** Some step of the list switched the release pointer. */
  predicate HasSwitch(steps: seq<Step>) {
    exists i :: 0 <= i < |steps| && steps[i].SetCurrent?
  }

  predicate HasBackup(steps: seq<Step>) {
    exists i :: 0 <= i < |steps| && steps[i].SaveBackup?
  }

  lemma {:induction false} PointerKept(w: World, steps: seq<Step>)
    requires !HasSwitch(steps)
    ensures DoAll(w, steps).live.current == w.live.current
    decreases |steps|
  {
    if steps != [] {
      assert !steps[0].SetCurrent?;
      assert forall i :: 0 <= i < |steps[1..]| ==> steps[1..][i] == steps[i + 1];
      PointerKept(Do(w, steps[0]), steps[1..]);
    }
  }

  /** The backup is taken by the last but one step of the opening, and by no other. */
  lemma BackupPlace(t: Txn, i: nat)
    requires t.CoversAll(t.early) && t.CoversAll(t.late) && i <= |t.Program()|
    ensures HasBackup(t.Program()[..i]) <==> |t.Opening()| - 2 < i
  {
    var p, n := t.Program(), |t.Opening()|;
    assert p[n - 2] == t.Opening()[n - 2];
    if n - 2 < i {
      assert p[..i][n - 2].SaveBackup?;
    } else {
      assert forall k :: 0 <= k < i ==> p[..i][k] == t.Opening()[k];
    }
  }

  /** What a prefix of the program leaves for the `except` block to work on. */
  lemma PrefixState(w0: World, t: Txn, m: nat)
    requires t.Begins(w0) && 0 < m <= |t.Program()|
    ensures m < |t.Opening()| ==> Opened(w0, t, DoAll(w0, t.Program()[..m]))
    ensures |t.Opening()| - 2 < m ==> Restorable(w0, t, DoAll(w0, t.Program()[..m]))
  {
    var n, p := |t.Opening()|, t.Program();
    CrashState(w0, t, m);
    if m == n - 1 {
      CrashState(w0, t, m - 1);
      DoAllSnoc(w0, p, m - 1);
      assert p[m - 1] == t.Opening()[m - 1] == SaveBackup(t.id, t.files, t.roots, t.features);
    } else if m == |p| {
      assert p[..m] == p;
    }
  }

  /**
   * The one failure the `except` block of apply cannot undo: `_switch_release`
   * has replaced the pointer and then raises, before `switched` is set.
   */
  predicate Stranded(t: Txn, failAt: nat, half: bool)
    requires failAt < |t.Program()|
  {
    && half && t.Program()[failAt].SetCurrent? && t.Program()[failAt].target != t.previous
    && !HasSwitch(t.Program()[..failAt])
  }

  /** The world and the `except` block's two flags when step `failAt` has raised. */
  ghost predicate Failed(w0: World, t: Txn, failAt: nat, half: bool, w: World, switched: bool, backed: bool) {
    && 0 < failAt < |t.Program()|
    && w == DoAll(w0, t.Program()[..if half then failAt + 1 else failAt])
    && switched == HasSwitch(t.Program()[..failAt]) && backed == HasBackup(t.Program()[..failAt])
  }

  /** The exact outcome of handling a failure in process. */
  lemma UndoneExactly(w0: World, t: Txn, failAt: nat, half: bool, w: World, switched: bool, backed: bool)
    requires t.Begins(w0) && Failed(w0, t, failAt, half, w, switched, backed)
    ensures backed ==> t.id in w.backups
    ensures Undone(w0, t, DoAll(w, UndoSteps(t, if backed then Some(w.backups[t.id]) else None, switched))) <==>
            !Stranded(t, failAt, half)
  {
    BackupPlace(t, failAt);
    var m := if half then failAt + 1 else failAt;
    PrefixState(w0, t, m);
    if !switched {
      PointerAtFailure(w0, t, failAt, half);
    }
    hide Txn.Program, Undone, DoAll, Opened, HasSwitch, HasBackup, UndoSteps;
    if backed {
      InProcessUndo(w0, t, w, switched);
    } else {
      NoSwitchYet(t, failAt);
      UndoBeforeBackup(w0, t, w);
    }
  }

  lemma NoSwitchYet(t: Txn, failAt: nat)
    requires failAt <= |t.Opening()| - 2
    ensures !HasSwitch(t.Program()[..failAt]) && !t.Program()[failAt].SetCurrent?
  {
    assert forall k :: 0 <= k < |t.Opening()| ==> t.Program()[k] == t.Opening()[k];
  }

  lemma FlagsStart(w: World, steps: seq<Step>)
    ensures DoAll(w, steps[..0]) == w && !HasSwitch(steps[..0]) && !HasBackup(steps[..0])
  {
  }

  lemma FlagsStep(w: World, steps: seq<Step>, i: nat)
    requires i < |steps|
    ensures DoAll(w, steps[..i + 1]) == Do(DoAll(w, steps[..i]), steps[i])
    ensures HasSwitch(steps[..i + 1]) <==> HasSwitch(steps[..i]) || steps[i].SetCurrent?
    ensures HasBackup(steps[..i + 1]) <==> HasBackup(steps[..i]) || steps[i].SaveBackup?
  {
    DoAllSnoc(w, steps, i);
    hide DoAll;
    var p, q := steps[..i], steps[..i + 1];
    assert q[i] == steps[i] && forall k :: 0 <= k < i ==> q[k] == p[k];
    if HasSwitch(p) {
      var k :| 0 <= k < |p| && p[k].SetCurrent?;
      assert q[k].SetCurrent?;
    }
    if HasBackup(p) {
      var k :| 0 <= k < |p| && p[k].SaveBackup?;
      assert q[k].SaveBackup?;
    }
  }

  lemma FirstStep(w0: World, t: Txn)
    ensures |t.Program()| > 0 && Do(w0, t.Program()[0]).live == w0.live
  {
    assert t.Program()[0] == t.Opening()[0] == t.Note(Preparing, false);
  }

  lemma PointerAtFailure(w0: World, t: Txn, failAt: nat, half: bool)
    requires t.Begins(w0) && failAt < |t.Program()| && !HasSwitch(t.Program()[..failAt])
    ensures var w := DoAll(w0, t.Program()[..if half then failAt + 1 else failAt]);
      w.live.current == t.previous <==> !Stranded(t, failAt, half)
  {
    PointerKept(w0, t.Program()[..failAt]);
    DoAllSnoc(w0, t.Program(), failAt);
    hide HasSwitch, DoAll;
  }

  // ---------------------------------------------------------------- the three operations

  /** Manifest and release pointer agree: both absent, or both naming the same release. */
  predicate Consistent(live: Live) {
    match live.InstalledManifest()
    case None => live.current == None
    case Some(m) => live.current == Some(m.release)
  }

  function InstalledFeatures(live: Live): set<Name> {
    match live.InstalledManifest()
    case None => {}
    case Some(m) => m.features
  }

  /**
   * `_apply_release_materialized`: the backup records requested and installed
   * features together.  `early` migrates configuration and state, `units` renders
   * units and helpers, `etc` is the configuration root with its new manifest, and
   * `tail` removes migrated state.
   */
  function ApplyTxn(live: Live, version: Name, requested: set<Name>, id: Name, snapshot: seq<Name>, roots: seq<Name>,
                    early: seq<Step>, units: seq<Step>, etc: Content, tail: seq<Step>): Txn {
    Txn(live.current, version, true, true, id, snapshot, roots, requested + InstalledFeatures(live), early,
        [SetCurrent(Some(version))] + units + [SetRoot(ETC, Some(etc))] + tail)
  }

  /** The configuration root after its manifest has been pointed at another release. */
  function Repointed(live: Live, target: Name): Content
    requires live.InstalledManifest().Some?
  {
    var m := live.InstalledManifest().value;
    live.roots[ETC].(manifest := Some(m.(release := target, previous := live.current)))
  }

  /** `_rollback`: no managed file is touched, the target release is kept. */
  function RollbackTxn(live: Live, target: Name, id: Name, roots: seq<Name>): Txn
    requires live.InstalledManifest().Some?
  {
    Txn(live.current, target, false, false, id, [], roots, InstalledFeatures(live),
        [], [SetCurrent(Some(target)), SetRoot(ETC, Some(Repointed(live, target)))])
  }

  /** `_rollback_legacy`: put the predecessor's files, pointer and state back. */
  function LegacyTxn(live: Live, current: Name, id: Name, files: seq<Name>, roots: seq<Name>,
                     dropins: seq<Name>, legacy: Backup): Txn {
    Txn(live.current, current, false, false, id, files, roots, InstalledFeatures(live), [],
        Removals(dropins) + RestoreSteps(legacy, None))
  }

  /**
   * Recovery accepts exactly an installation whose manifest and pointer agree
   * and whose features, if one is installed, are the recorded ones.
   */
  lemma AcceptsExact(live: Live, previous: Option<Name>, features: set<Name>)
    ensures Accepts(live, previous, features) <==>
      && Consistent(live.(current := previous))
      && (live.InstalledManifest().Some? ==> InstalledFeatures(live) == features)
  {
  }

  /**
   * When recovery can finish.  Without a backup pointer nothing may have moved
   * yet; with one, the backup must be there and its restoration acceptable.
   */
  lemma RecoverFinishes(w: World)
    ensures Recover(w).Finished? <==>
      || w.journal == None || w.journal.value.state in {Complete, RolledBack, Recovered}
      || (w.journal.value.backup == None && w.journal.value.state == Preparing
          && w.live.current == w.journal.value.previous)
      || (w.journal.value.backup.Some? && w.journal.value.backup.value in w.backups
          && var b := w.backups[w.journal.value.backup.value];
          Accepts(DoAll(w, RestoreSteps(b, w.journal.value.previous)).live, w.journal.value.previous, b.features))
    ensures Recover(w).Refused? && (w.journal.value.backup == None || w.journal.value.backup.value !in w.backups) ==>
      Recover(w).world == w
  {
    hide DoAll, RestoreSteps, Accepts;
  }

  /**
   * A power loss during apply can be recovered exactly when the requested
   * features were already installed, or nothing was: the backup records the
   * union of both, and recovery compares it with the restored manifest.
   */
  lemma ApplyRecoverable(live: Live, version: Name, requested: set<Name>, id: Name, snapshot: seq<Name>,
                         roots: seq<Name>, early: seq<Step>, units: seq<Step>, etc: Content, tail: seq<Step>)
    requires Consistent(live)
    ensures var t := ApplyTxn(live, version, requested, id, snapshot, roots, early, units, etc, tail);
      Accepts(live, t.previous, t.features) <==>
      live.InstalledManifest() == None || requested <= InstalledFeatures(live)
  {
    match live.InstalledManifest()
    case None =>
    case Some(m) =>
      if requested <= m.features {
        assert requested + m.features == m.features;
      } else {
        var f :| f in requested && f !in m.features;
        assert f in requested + m.features;
      }
  }

  lemma RollbackRecoverable(live: Live, target: Name, id: Name, roots: seq<Name>)
    requires Consistent(live) && live.InstalledManifest().Some? && ETC in roots
    ensures var t := RollbackTxn(live, target, id, roots);
      Accepts(live, t.previous, t.features) && t.CoversAll(t.early) && t.CoversAll(t.late)
  {
  }

  /** The legacy rollback is covered exactly when its backup saved every place the predecessor restores. */
  lemma LegacyRecoverable(live: Live, current: Name, id: Name, files: seq<Name>, roots: seq<Name>,
                          dropins: seq<Name>, legacy: Backup)
    requires Consistent(live) && forall d :: d in dropins ==> d in files
    ensures var t := LegacyTxn(live, current, id, files, roots, dropins, legacy);
      && Accepts(live, t.previous, t.features)
      && (t.CoversAll(t.late) <==>
            (forall i :: 0 <= i < |legacy.files| ==> legacy.files[i].key in files)
            && (forall i :: 0 <= i < |legacy.roots| ==> legacy.roots[i].key in roots))
  {
    var t := LegacyTxn(live, current, id, files, roots, dropins, legacy);
    var d, f := |dropins|, |legacy.files|;
    assert forall i :: 0 <= i < d ==> t.late[i] == SetFile(dropins[i], None);
    assert forall i :: 0 <= i < f ==> t.late[d + i] == SetFile(legacy.files[i].key, legacy.files[i].value);
    assert forall i :: 0 <= i < |legacy.roots| ==>
      t.late[d + f + 1 + i] == SetRoot(legacy.roots[i].key, legacy.roots[i].value);
    assert t.late[d + f] == SetCurrent(None);
    forall i | 0 <= i < |t.late|
      ensures t.Covers(t.late[i]) <==>
        if i < d || i == d + f then true
        else if i < d + f then legacy.files[i - d].key in files
        else legacy.roots[i - d - f - 1].key in roots
    {
      if d <= i < d + f {
        assert t.late[d + (i - d)] == t.late[i];
      } else if i > d + f {
        assert t.late[d + f + 1 + (i - d - f - 1)] == t.late[i];
      }
    }
    if t.CoversAll(t.late) {
      forall i | 0 <= i < f ensures legacy.files[i].key in files {
        assert t.Covers(t.late[d + i]);
      }
      forall i | 0 <= i < |legacy.roots| ensures legacy.roots[i].key in roots {
        assert t.Covers(t.late[d + f + 1 + i]);
      }
    }
  }

  // ---------------------------------------------------------------- what a completed transaction achieves

  predicate TouchesFile(steps: seq<Step>, path: Name) {
    exists i :: 0 <= i < |steps| && steps[i].SetFile? && steps[i].path == path
  }

  predicate TouchesRoot(steps: seq<Step>, root: Name) {
    exists i :: 0 <= i < |steps| && steps[i].SetRoot? && steps[i].root == root
  }

  /** What steps do to the installation depends on the installation alone. */
  lemma {:induction false} LiveOnly(w: World, v: World, steps: seq<Step>)
    requires w.live == v.live
    ensures DoAll(w, steps).live == DoAll(v, steps).live
    decreases |steps|
  {
    if steps != [] {
      LiveOnly(Do(w, steps[0]), Do(v, steps[0]), steps[1..]);
    }
  }

  /** A place no step touches keeps its value. */
  lemma {:induction false} Untouched(w: World, steps: seq<Step>, path: Name, root: Name)
    ensures !TouchesFile(steps, path) ==> Lookup(DoAll(w, steps).live.files, path) == Lookup(w.live.files, path)
    ensures !TouchesRoot(steps, root) ==> Lookup(DoAll(w, steps).live.roots, root) == Lookup(w.live.roots, root)
    decreases |steps|
  {
    if steps != [] {
      Untouched(Do(w, steps[0]), steps[1..], path, root);
      TouchesTail(steps, path, root);
      hide TouchesFile, TouchesRoot;
    }
  }

  lemma TouchesTail(steps: seq<Step>, path: Name, root: Name)
    requires steps != []
    ensures TouchesFile(steps[1..], path) ==> TouchesFile(steps, path)
    ensures TouchesRoot(steps[1..], root) ==> TouchesRoot(steps, root)
    ensures steps[0].SetFile? && steps[0].path == path ==> TouchesFile(steps, path)
    ensures steps[0].SetRoot? && steps[0].root == root ==> TouchesRoot(steps, root)
  {
    assert forall i :: 0 <= i < |steps[1..]| ==> steps[1..][i] == steps[i + 1];
  }

  /** A completed transaction leaves the early and late mutations, its release, its backup and a closed journal. */
  lemma Completed(w0: World, t: Txn)
    requires t.Begins(w0)
    ensures var w := DoAll(w0, t.Program());
      && w.live == DoAll(w0, t.early + t.late).live
      && w.releases == (if t.creates then w0.releases + {t.candidate} else w0.releases)
      && w.journal == Some(Journal(Complete, t.previous, t.candidate, Some(t.id), t.creates))
      && t.id in w.backups
      && w.backups[t.id] == Backup(SaveAll(w0.live.files, t.files), SaveAll(w0.live.roots, t.roots), t.features)
      && (forall f :: f !in t.files ==> Lookup(w.live.files, f) == Lookup(w0.live.files, f))
      && (forall r :: r !in t.roots ==> Lookup(w.live.roots, r) == Lookup(w0.live.roots, r))
  {
    CrashState(w0, t, |t.Program()|);
    CompletedReleases(w0, t);
    CompletedLive(w0, t);
  }

  lemma CompletedLive(w0: World, t: Txn)
    requires t.Begins(w0)
    ensures DoAll(w0, t.Program()).live == DoAll(w0, t.early + t.late).live
  {
    var v := OpeningLive(w0, t);
    var note := if t.switches then [t.Note(Switching, true)] else [];
    assert t.Program() == t.Opening() + (t.early + (note + (t.late + [t.Note(Complete, true)])));
    DoAllConcat(w0, t.Opening(), t.early + (note + (t.late + [t.Note(Complete, true)])));
    DoAllConcat(v, t.early, note + (t.late + [t.Note(Complete, true)]));
    var u := DoAll(v, t.early);
    DoAllConcat(u, note, t.late + [t.Note(Complete, true)]);
    if t.switches {
      LastStep(u, t.Note(Switching, true));
    }
    var x := DoAll(u, note);
    DoAllConcat(x, t.late, [t.Note(Complete, true)]);
    LastStep(DoAll(x, t.late), t.Note(Complete, true));
    hide DoAll;
    assert x.live == u.live;
    LiveOnly(x, u, t.late);
    DoAllConcat(v, t.early, t.late);
    LiveOnly(v, w0, t.early + t.late);
  }

  /** The opening does not touch the installation. */
  lemma OpeningLive(w0: World, t: Txn) returns (v: World)
    requires t.Begins(w0)
    ensures v == DoAll(w0, t.Opening()) && v.live == w0.live
    ensures v.releases == if t.creates then w0.releases + {t.candidate} else w0.releases
  {
    var first, create := [t.Note(Preparing, false)], if t.creates then [CreateRelease(t.candidate)] else [];
    var save, note := SaveBackup(t.id, t.files, t.roots, t.features), t.Note(BackedUp, true);
    v := DoAll(w0, t.Opening());
    assert t.Opening() == first + (create + ([save] + [note]));
    DoAllConcat(w0, first, create + ([save] + [note]));
    LastStep(w0, t.Note(Preparing, false));
    var a := DoAll(w0, first);
    DoAllConcat(a, create, [save] + [note]);
    if t.creates {
      LastStep(a, CreateRelease(t.candidate));
    }
    var b := DoAll(a, create);
    DoAllConcat(b, [save], [note]);
    LastStep(b, save);
    LastStep(Do(b, save), note);
  }

  lemma {:induction false} ReleasesKept(t: Txn, w: World, steps: seq<Step>)
    requires forall i :: 0 <= i < |steps| ==> t.Covers(steps[i]) || steps[i].WriteJournal?
    ensures DoAll(w, steps).releases == w.releases
    decreases |steps|
  {
    if steps != [] {
      ReleasesKept(t, Do(w, steps[0]), steps[1..]);
    }
  }

  lemma CompletedReleases(w0: World, t: Txn)
    requires t.Begins(w0)
    ensures DoAll(w0, t.Program()).releases == if t.creates then w0.releases + {t.candidate} else w0.releases
  {
    var v := OpeningLive(w0, t);
    var rest := t.Body() + [t.Note(Complete, true)];
    assert t.Program() == t.Opening() + rest;
    DoAllConcat(w0, t.Opening(), rest);
    ReleasesKept(t, v, rest);
  }

  /**
   * A completed apply has switched to the new version, installed or not before,
   * and its configuration root is the one with the new manifest; what the
   * mutations do not name is as it was.
   */
  lemma ApplyOutcome(w0: World, version: Name, requested: set<Name>, id: Name, snapshot: seq<Name>, roots: seq<Name>,
                     early: seq<Step>, units: seq<Step>, etc: Content, tail: seq<Step>)
    requires ApplyTxn(w0.live, version, requested, id, snapshot, roots, early, units, etc, tail).Begins(w0)
    requires !HasSwitch(units) && !HasSwitch(tail) && !TouchesRoot(tail, ETC)
    ensures var t := ApplyTxn(w0.live, version, requested, id, snapshot, roots, early, units, etc, tail);
      var w := DoAll(w0, t.Program());
      && w.live.current == Some(version) && w.releases == w0.releases + {version}
      && Lookup(w.live.roots, ETC) == Some(etc)
      && (forall m :: etc.manifest == Some(m) && m.release == version ==>
            Consistent(w.live) && InstalledFeatures(w.live) == m.features)
      && (forall f :: !TouchesFile(early + units + tail, f) ==> Lookup(w.live.files, f) == Lookup(w0.live.files, f))
      && (forall r :: r != ETC && !TouchesRoot(early + units + tail, r) ==>
            Lookup(w.live.roots, r) == Lookup(w0.live.roots, r))
      && w.journal == Some(Journal(Complete, w0.live.current, version, Some(id), true))
      && id in w.backups && w.backups[id].features == requested + InstalledFeatures(w0.live)
  {
    var t := ApplyTxn(w0.live, version, requested, id, snapshot, roots, early, units, etc, tail);
    hide HasSwitch, DoAll, TouchesFile, TouchesRoot, Lookup, Consistent, InstalledFeatures;
    hide Txn.Program, Txn.Begins;
    Completed(w0, t);
    ApplyMutations(w0, version, early, units, etc, tail);
    assert t.early + t.late == early + ([SetCurrent(Some(version))] + (units + ([SetRoot(ETC, Some(etc))] + tail)));
    InstalledIs(DoAll(w0, t.Program()).live, etc);
  }

  lemma InstalledIs(live: Live, etc: Content)
    requires Lookup(live.roots, ETC) == Some(etc)
    ensures forall m :: etc.manifest == Some(m) && live.current == Some(m.release) ==>
      Consistent(live) && InstalledFeatures(live) == m.features
  {
  }

  /** The mutations of an apply, one group after the other. */
  lemma ApplyMutations(w0: World, version: Name, early: seq<Step>, units: seq<Step>, etc: Content, tail: seq<Step>)
    requires !HasSwitch(units) && !HasSwitch(tail) && !TouchesRoot(tail, ETC)
    ensures var steps := early + ([SetCurrent(Some(version))] + (units + ([SetRoot(ETC, Some(etc))] + tail)));
      var live := DoAll(w0, steps).live;
      && live.current == Some(version) && Lookup(live.roots, ETC) == Some(etc)
      && (forall f :: !TouchesFile(early + units + tail, f) ==> Lookup(live.files, f) == Lookup(w0.live.files, f))
      && (forall r :: r != ETC && !TouchesRoot(early + units + tail, r) ==>
            Lookup(live.roots, r) == Lookup(w0.live.roots, r))
  {
    var switch_, install := SetCurrent(Some(version)), SetRoot(ETC, Some(etc));
    DoAllConcat(w0, early, [switch_] + (units + ([install] + tail)));
    var a := DoAll(w0, early);
    DoAllConcat(a, [switch_], units + ([install] + tail));
    LastStep(a, switch_);
    var b := Do(a, switch_);
    DoAllConcat(b, units, [install] + tail);
    var c := DoAll(b, units);
    DoAllConcat(c, [install], tail);
    LastStep(c, install);
    var d := Do(c, install);
    PointerKept(b, units);
    PointerKept(d, tail);
    hide DoAll, HasSwitch;
    Untouched(d, tail, ETC, ETC);
    forall f | !TouchesFile(early + units + tail, f)
      ensures Lookup(DoAll(d, tail).live.files, f) == Lookup(w0.live.files, f)
    {
      TouchesParts(early, units, tail, f, f);
      Untouched(w0, early, f, f);
      Untouched(b, units, f, f);
      Untouched(d, tail, f, f);
    }
    forall r | r != ETC && !TouchesRoot(early + units + tail, r)
      ensures Lookup(DoAll(d, tail).live.roots, r) == Lookup(w0.live.roots, r)
    {
      TouchesParts(early, units, tail, r, r);
      Untouched(w0, early, r, r);
      Untouched(b, units, r, r);
      Untouched(d, tail, r, r);
    }
  }

  lemma TouchesParts(a: seq<Step>, b: seq<Step>, c: seq<Step>, path: Name, root: Name)
    ensures TouchesFile(a, path) || TouchesFile(b, path) || TouchesFile(c, path) ==> TouchesFile(a + b + c, path)
    ensures TouchesRoot(a, root) || TouchesRoot(b, root) || TouchesRoot(c, root) ==> TouchesRoot(a + b + c, root)
  {
    var s := a + b + c;
    assert forall i :: 0 <= i < |a| ==> s[i] == a[i];
    assert forall i :: 0 <= i < |b| ==> s[|a| + i] == b[i];
    assert forall i :: 0 <= i < |c| ==> s[|a| + |b| + i] == c[i];
  }

  /**
   * A completed rollback has switched to the target; the manifest names the
   * target, and the release left behind as the previous one, and everything else
   * is as before.
   */
  lemma RollbackOutcome(w0: World, target: Name, id: Name, roots: seq<Name>)
    requires w0.live.InstalledManifest().Some? && RollbackTxn(w0.live, target, id, roots).Begins(w0)
    ensures var w := DoAll(w0, RollbackTxn(w0.live, target, id, roots).Program());
      var m := w0.live.InstalledManifest().value;
      && w.live.current == Some(target) && Consistent(w.live)
      && w.live.InstalledManifest() == Some(Manifest(target, w0.live.current, m.features, m.legacyBackup))
      && w.live.files == w0.live.files && w.releases == w0.releases
      && (forall r :: r != ETC ==> Lookup(w.live.roots, r) == Lookup(w0.live.roots, r))
      && ETC in w.live.roots && w.live.roots[ETC].data == w0.live.roots[ETC].data
      && w.journal == Some(Journal(Complete, w0.live.current, target, Some(id), false))
  {
    var t := RollbackTxn(w0.live, target, id, roots);
    Completed(w0, t);
    var a, b := SetCurrent(Some(target)), SetRoot(ETC, Some(Repointed(w0.live, target)));
    assert t.early + t.late == [a] + [b];
    DoAllConcat(w0, [a], [b]);
    LastStep(w0, a);
    LastStep(Do(w0, a), b);
    hide DoAll, Txn.Program, Txn.Begins;
  }

  /** Rolling back, and then back to the release the manifest now names as previous, restores the installation. */
  lemma RollbackTwice(w0: World, target: Name, id: Name, again: Name, roots: seq<Name>)
    requires w0.live.InstalledManifest().Some? && RollbackTxn(w0.live, target, id, roots).Begins(w0)
    requires Consistent(w0.live)
    ensures var w := DoAll(w0, RollbackTxn(w0.live, target, id, roots).Program());
      && w.live.InstalledManifest().Some? && w.live.InstalledManifest().value.previous == w0.live.current
      && w0.live.current.Some?
      && (RollbackTxn(w.live, w0.live.current.value, again, roots).Begins(w) ==>
            var v := DoAll(w, RollbackTxn(w.live, w0.live.current.value, again, roots).Program());
            v.live.files == w0.live.files && v.live.current == w0.live.current
            && (forall r :: r != ETC ==> Lookup(v.live.roots, r) == Lookup(w0.live.roots, r))
            && v.live.InstalledManifest() == Some(w0.live.InstalledManifest().value.(previous := Some(target))))
  {
    RollbackOutcome(w0, target, id, roots);
    var w := DoAll(w0, RollbackTxn(w0.live, target, id, roots).Program());
    hide DoAll, Txn.Program, Txn.Begins, RollbackTxn;
    if RollbackTxn(w.live, w0.live.current.value, again, roots).Begins(w) {
      RollbackOutcome(w, w0.live.current.value, again, roots);
    }
  }

  ghost predicate DistinctKeys<V>(saved: seq<Saved<V>>) {
    forall i, j :: 0 <= i < j < |saved| ==> saved[i].key != saved[j].key
  }

  /** Restored files have their saved values, other files and everything else stay. */
  lemma {:induction false} FileStepsEffect(w: World, saved: seq<Saved<int>>)
    requires DistinctKeys(saved)
    ensures var v := DoAll(w, FileSteps(saved));
      && v == w.(live := w.live.(files := v.live.files))
      && (forall i :: 0 <= i < |saved| ==> Lookup(v.live.files, saved[i].key) == saved[i].value)
      && (forall f :: (forall i :: 0 <= i < |saved| ==> saved[i].key != f) ==>
            Lookup(v.live.files, f) == Lookup(w.live.files, f))
    decreases |saved|
  {
    if saved != [] {
      var tail := saved[1..];
      assert forall i :: 0 <= i < |tail| ==> tail[i] == saved[i + 1];
      assert FileSteps(saved)[1..] == FileSteps(tail);
      FileStepsEffect(Do(w, FileSteps(saved)[0]), tail);
    }
  }

  lemma {:induction false} RootStepsEffect(w: World, saved: seq<Saved<Content>>)
    requires DistinctKeys(saved)
    ensures var v := DoAll(w, RootSteps(saved));
      && v == w.(live := w.live.(roots := v.live.roots))
      && (forall i :: 0 <= i < |saved| ==> Lookup(v.live.roots, saved[i].key) == saved[i].value)
      && (forall r :: (forall i :: 0 <= i < |saved| ==> saved[i].key != r) ==>
            Lookup(v.live.roots, r) == Lookup(w.live.roots, r))
    decreases |saved|
  {
    if saved != [] {
      var tail := saved[1..];
      assert forall i :: 0 <= i < |tail| ==> tail[i] == saved[i + 1];
      assert RootSteps(saved)[1..] == RootSteps(tail);
      RootStepsEffect(Do(w, RootSteps(saved)[0]), tail);
    }
  }

  function Removals(paths: seq<Name>): seq<Step> {
    seq(|paths|, i requires 0 <= i < |paths| => SetFile(paths[i], None))
  }

  lemma {:induction false} RemovalsEffect(w: World, paths: seq<Name>)
    ensures var v := DoAll(w, Removals(paths));
      && v == w.(live := w.live.(files := v.live.files))
      && (forall f :: f in paths ==> f !in v.live.files)
      && (forall f :: f !in paths ==> Lookup(v.live.files, f) == Lookup(w.live.files, f))
    decreases |paths|
  {
    if paths != [] {
      assert Removals(paths)[1..] == Removals(paths[1..]);
      RemovalsEffect(Do(w, Removals(paths)[0]), paths[1..]);
      assert forall f :: f in paths <==> f == paths[0] || f in paths[1..];
    }
  }

  /** The saved value of a key. */
  ghost predicate SavedAs<V>(saved: seq<Saved<V>>, key: Name, value: Option<V>) {
    Saved(key, value) in saved
  }

  ghost predicate SavedAtAll<V>(saved: seq<Saved<V>>, key: Name) {
    exists i :: 0 <= i < |saved| && saved[i].key == key
  }

  /**
   * A completed legacy rollback leaves no release pointer, the predecessor's files
   * and roots, and none of the drop-ins the predecessor did not have; everything
   * else is as before.
   */
  lemma LegacyOutcome(w0: World, current: Name, id: Name, files: seq<Name>, roots: seq<Name>,
                      dropins: seq<Name>, legacy: Backup)
    requires LegacyTxn(w0.live, current, id, files, roots, dropins, legacy).Begins(w0)
    requires DistinctKeys(legacy.files) && DistinctKeys(legacy.roots)
    ensures var w := DoAll(w0, LegacyTxn(w0.live, current, id, files, roots, dropins, legacy).Program());
      && w.live.current == None && w.releases == w0.releases
      && (forall f, v :: SavedAs(legacy.files, f, v) ==> Lookup(w.live.files, f) == v)
      && (forall f :: f in dropins && !SavedAtAll(legacy.files, f) ==> f !in w.live.files)
      && (forall f :: f !in dropins && !SavedAtAll(legacy.files, f) ==>
            Lookup(w.live.files, f) == Lookup(w0.live.files, f))
      && (forall r, v :: SavedAs(legacy.roots, r, v) ==> Lookup(w.live.roots, r) == v)
      && (forall r :: !SavedAtAll(legacy.roots, r) ==> Lookup(w.live.roots, r) == Lookup(w0.live.roots, r))
      && (w.live.InstalledManifest() == None ==> Consistent(w.live))
      && w.journal == Some(Journal(Complete, w0.live.current, current, Some(id), false))
  {
    hide DoAll, Lookup, SavedAs, SavedAtAll, DistinctKeys, Removals, FileSteps, RootSteps, Txn.Program, Txn.Begins;
    var t := LegacyTxn(w0.live, current, id, files, roots, dropins, legacy);
    assert t.early + t.late ==
           Removals(dropins) + (FileSteps(legacy.files) + ([SetCurrent(None)] + RootSteps(legacy.roots)));
    Completed(w0, t);
    LegacyMutations(w0, dropins, legacy);
  }

  lemma LegacyMutations(w0: World, dropins: seq<Name>, legacy: Backup)
    requires DistinctKeys(legacy.files) && DistinctKeys(legacy.roots)
    ensures var steps :=
        Removals(dropins) + (FileSteps(legacy.files) + ([SetCurrent(None)] + RootSteps(legacy.roots)));
      var live := DoAll(w0, steps).live;
      && live.current == None
      && (forall f, v :: SavedAs(legacy.files, f, v) ==> Lookup(live.files, f) == v)
      && (forall f :: f in dropins && !SavedAtAll(legacy.files, f) ==> f !in live.files)
      && (forall f :: f !in dropins && !SavedAtAll(legacy.files, f) ==>
            Lookup(live.files, f) == Lookup(w0.live.files, f))
      && (forall r, v :: SavedAs(legacy.roots, r, v) ==> Lookup(live.roots, r) == v)
      && (forall r :: !SavedAtAll(legacy.roots, r) ==> Lookup(live.roots, r) == Lookup(w0.live.roots, r))
  {
    var rest := [SetCurrent(None)] + RootSteps(legacy.roots);
    DoAllConcat(w0, Removals(dropins), FileSteps(legacy.files) + rest);
    RemovalsEffect(w0, dropins);
    var a := DoAll(w0, Removals(dropins));
    DoAllConcat(a, FileSteps(legacy.files), rest);
    FileStepsEffect(a, legacy.files);
    var b := DoAll(a, FileSteps(legacy.files));
    DoAllConcat(b, [SetCurrent(None)], RootSteps(legacy.roots));
    LastStep(b, SetCurrent(None));
    RootStepsEffect(Do(b, SetCurrent(None)), legacy.roots);
    hide DoAll, FileSteps, RootSteps, Removals;
    assert forall f :: f !in a.live.files <==> Lookup(a.live.files, f) == None;
  }

  /** A refusal is permanent: running recovery again refuses again. */
  lemma RefusalIsPermanent(w0: World, t: Txn, w: World)
    requires t.Begins(w0) && Torn(w0, t, w) && (t.creates ==> Some(t.candidate) != t.previous)
    requires !Accepts(w0.live, t.previous, t.features)
    ensures Recover(w).Refused? && Recover(Recover(w).world) == Recover(w)
  {
    RecoverTorn(w0, t, w);
    hide Recover;
    RecoverTorn(w0, t, w.(live := w0.live));
  }

  /**
   * The refusal is reachable: an upgrade that asks for one more feature, cut off
   * right after its backup, is refused by recovery.
   */
  lemma AddedFeatureIsRefused(version: Name, id: Name, installed: Name, feature: Name, etc: Content)
    requires version != installed
    ensures var live := Live(Some(installed), map[], map[ETC := Content(Some(Manifest(installed, None, {}, None)), 0)]);
      var w0 := World(live, {installed}, None, map[]);
      var t := ApplyTxn(live, version, {feature}, id, [], [ETC], [], [], etc, []);
      t.Begins(w0) && Recover(DoAll(w0, t.Program()[..|t.Opening()|])).Refused?
  {
    var live := Live(Some(installed), map[], map[ETC := Content(Some(Manifest(installed, None, {}, None)), 0)]);
    var w0 := World(live, {installed}, None, map[]);
    var t := ApplyTxn(live, version, {feature}, id, [], [ETC], [], [], etc, []);
    assert t.Begins(w0);
    ApplyRecoverable(live, version, {feature}, id, [], [ETC], [], [], etc, []);
    assert feature in t.features;
    hide Txn.Begins, DoAll, Recover;
    AllOrNothing(w0, t, |t.Opening()|);
  }

  /**
   * The stranding failure is reachable: when `_switch_release` raises right
   * after replacing the pointer of a fresh machine, the undo removes the
   * candidate release, leaves the pointer on it and closes the journal, so a
   * later recovery changes nothing.
   */
  lemma SwitchFailureStrands(version: Name, id: Name, etc: Content)
    ensures var live := Live(None, map[], map[]);
      var w0 := World(live, {}, None, map[]);
      var t := ApplyTxn(live, version, {}, id, [], [ETC], [], [], etc, []);
      var k := |t.Opening()| + 1;
      && t.Begins(w0) && k < |t.Program()| && Stranded(t, k, true)
      && var w := DoAll(w0, t.Program()[..k + 1]);
         id in w.backups &&
         var u := DoAll(w, UndoSteps(t, Some(w.backups[id]), false));
         u.live.current == Some(version) && version !in u.releases && Recover(u) == Finished(u)
  {
    var live := Live(None, map[], map[]);
    var w0 := World(live, {}, None, map[]);
    var t := ApplyTxn(live, version, {}, id, [], [ETC], [], [], etc, []);
    var k := |t.Opening()| + 1;
    assert t.Program()[k] == SetCurrent(Some(version));
    assert !HasSwitch(t.Program()[..k]);
    var w := DoAll(w0, t.Program()[..k + 1]);
    DoAllSnoc(w0, t.Program(), k);
    PrefixState(w0, t, k + 1);
    var b := w.backups[id];
    assert UndoSteps(t, Some(b), false) == FileSteps(b.files) + RootSteps(b.roots) + UndoClosing(t, true);
    hide DoAll;
    var before := FileSteps(b.files) + RootSteps(b.roots);
    assert !HasSwitch(before);
    PointerKept(w, before);
    DoAllConcat(w, before, UndoClosing(t, true));
    UndoClosingIs(DoAll(w, before), t, true);
    RecoverTerminal(DoAll(w, UndoSteps(t, Some(b), false)));
  }

  // ---------------------------------------------------------------- recovery as it runs

  /** The machine whose durable state the installer changes in place. */
  class Machine {
    var live: Live
    var releases: set<Name>
    var journal: Option<Journal>
    var backups: map<Name, Backup>

    ghost function View(): World
      reads this
    {
      World(live, releases, journal, backups)
    }

    constructor (w: World)
      ensures View() == w
    {
      live, releases, journal, backups := w.live, w.releases, w.journal, w.backups;
    }

    method Perform(step: Step)
      modifies this
      ensures View() == Do(old(View()), step)
    {
      match step
      case WriteJournal(j) => journal := Some(j);
      case CreateRelease(r) => releases := releases + {r};
      case RemoveRelease(r) => releases := releases - {r};
      case SaveBackup(id, files, roots, features) =>
        backups := backups[id := Backup(SaveAll(live.files, files), SaveAll(live.roots, roots), features)];
      case SetCurrent(target) => live := live.(current := target);
      case SetFile(path, bytes) => live := live.(files := Store(live.files, path, bytes));
      case SetRoot(root, content) => live := live.(roots := Store(live.roots, root, content));
    }

    /**
     * `_apply_release_materialized` with an exception at step `failAt`, before
     * that step takes effect or (`half`) after it; past the first step the
     * exception is handled by undoing.
     */
    method ApplyRelease(t: Txn, failAt: nat, half: bool) returns (ok: bool)
      requires t.Begins(View()) && t.creates
      modifies this
      ensures ok <==> |t.Program()| <= failAt
      ensures ok ==> View() == DoAll(old(View()), t.Program())
      ensures !ok && failAt > 0 ==> (Undone(old(View()), t, View()) <==> !Stranded(t, failAt, half))
      ensures !ok && failAt == 0 ==> View().live == old(View()).live
    {
      hide Txn.Program, Txn.Begins, Restorable, Opened, DoAll, HasSwitch, HasBackup, Stranded, Undone;
      ghost var w0 := View();
      var steps := t.Program();
      var i, switched, backed := 0, false, false;
      FlagsStart(w0, steps);
      while i < |steps| && i < failAt
        invariant i <= |steps| && i <= failAt && View() == DoAll(w0, steps[..i])
        invariant switched == HasSwitch(steps[..i]) && backed == HasBackup(steps[..i])
      {
        FlagsStep(w0, steps, i);
        Perform(steps[i]);
        switched := switched || steps[i].SetCurrent?;
        backed := backed || steps[i].SaveBackup?;
        i := i + 1;
      }
      if i == |steps| {
        assert steps[..i] == steps;
        return true;
      }
      FlagsStep(w0, steps, i);
      if half {
        Perform(steps[i]);
      }
      if i == 0 {
        FirstStep(w0, t);
        return false;
      }
      UndoneExactly(w0, t, i, half, View(), switched, backed);
      UndoFailed(t, if backed then Some(backups[t.id]) else None, switched);
      return false;
    }

    /** The `except` block. */
    method UndoFailed(t: Txn, backup: Option<Backup>, switched: bool)
      requires t.creates
      modifies this
      ensures View() == DoAll(old(View()), UndoSteps(t, backup, switched))
    {
      hide UndoClosing, FileSteps, RootSteps, Do, DoAll;
      ghost var w := View();
      PointerStep(w, t, switched);
      ghost var done: seq<Step> := if switched then [SetCurrent(t.previous)] else [];
      if switched {
        live := live.(current := t.previous);
      }
      if backup.Some? {
        RestoreFiles(backup.value.files);
        DoAllConcat(w, done, FileSteps(backup.value.files));
        done := done + FileSteps(backup.value.files);
        RestoreRoots(backup.value.roots);
        DoAllConcat(w, done, RootSteps(backup.value.roots));
        done := done + RootSteps(backup.value.roots);
      }
      assert UndoSteps(t, backup, switched) == done + UndoClosing(t, backup.Some?);
      DoAllConcat(w, done, UndoClosing(t, backup.Some?));
      UndoClosingIs(View(), t, backup.Some?);
      releases := releases - {t.candidate};
      journal := Some(Journal(RolledBack, t.previous, t.candidate, if backup.Some? then Some(t.id) else None, true));
    }

    /** `_restore_files`. */
    method RestoreFiles(saved: seq<Saved<int>>)
      modifies this`live
      ensures View() == DoAll(old(View()), FileSteps(saved))
    {
      ghost var w, steps := View(), FileSteps(saved);
      var i := 0;
      while i < |saved|
        invariant i <= |saved| && View() == DoAll(w, steps[..i])
      {
        DoAllSnoc(w, steps, i);
        live := live.(files := Store(live.files, saved[i].key, saved[i].value));
        i := i + 1;
      }
      assert steps[..i] == steps;
    }

    /** The effect of a completed `_restore_state_backup` on the saved roots. */
    method RestoreRoots(saved: seq<Saved<Content>>)
      modifies this`live
      ensures View() == DoAll(old(View()), RootSteps(saved))
    {
      ghost var w, steps := View(), RootSteps(saved);
      var i := 0;
      while i < |saved|
        invariant i <= |saved| && View() == DoAll(w, steps[..i])
      {
        DoAllSnoc(w, steps, i);
        live := live.(roots := Store(live.roots, saved[i].key, saved[i].value));
        i := i + 1;
      }
      assert steps[..i] == steps;
    }

    /** `_recover_interrupted_transaction`; false when it raises. */
    method RecoverInterrupted() returns (finished: bool)
      modifies this
      ensures View() == Recover(old(View())).world
      ensures finished <==> Recover(old(View())).Finished?
    {
      ghost var w := View();
      if journal == None || journal.value.Terminal() {
        return true;
      }
      var j := journal.value;
      match j.backup {
        case None =>
          if j.state != Preparing || live.current != j.previous {
            return false;
          }
        case Some(id) =>
          if id !in backups {
            return false;
          }
          var b := backups[id];
          RestoreFiles(b.files);
          LastStep(View(), SetCurrent(j.previous));
          DoAllConcat(w, FileSteps(b.files), [SetCurrent(j.previous)]);
          live := live.(current := j.previous);
          DoAllConcat(w, FileSteps(b.files) + [SetCurrent(j.previous)], RootSteps(b.roots));
          RestoreRoots(b.roots);
          if !Accepts(live, j.previous, b.features) {
            return false;
          }
      }
      ClosingIs(View(), j);
      if j.removeCandidate && Some(j.candidate) != j.previous {
        releases := releases - {j.candidate};
      }
      journal := Some(j.(state := Recovered));
      return true;
    }
  }
}
