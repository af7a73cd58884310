/**
 * Which release backups survive, and which predecessor the manifest names,
 * across any history of installs, upgrades, rollbacks and failures.
 */
module BackupRetention {
  import opened Names
  import opened Prelude
  import opened Transaction

  datatype Entry = Entry(id: Name, mtime: int)

  /** Stable insertion by modification time. */
  function InsertByTime(e: Entry, s: seq<Entry>): seq<Entry> {
    if s == [] || e.mtime <= s[0].mtime then [e] + s else [s[0]] + InsertByTime(e, s[1..])
  }

  /** `sorted(..., key=st_mtime)`. */
  function ByTime(s: seq<Entry>): seq<Entry> {
    if s == [] then [] else InsertByTime(s[0], ByTime(s[1..]))
  }

  ghost predicate Ascending(s: seq<Entry>) {
    forall i, j :: 0 <= i < j < |s| ==> s[i].mtime <= s[j].mtime
  }

  lemma {:induction false} InsertMembers(e: Entry, s: seq<Entry>)
    ensures multiset(InsertByTime(e, s)) == multiset(s) + multiset{e}
    ensures |InsertByTime(e, s)| == |s| + 1
  {
    if s != [] && e.mtime > s[0].mtime {
      InsertMembers(e, s[1..]);
      assert s == [s[0]] + s[1..];
    }
  }

  lemma {:induction false} InsertSorted(e: Entry, s: seq<Entry>)
    requires Ascending(s)
    ensures Ascending(InsertByTime(e, s))
  {
    if s != [] && e.mtime > s[0].mtime {
      var rest, t := s[1..], InsertByTime(e, s[1..]);
      InsertSorted(e, rest);
      InsertMembers(e, rest);
      forall j | 0 <= j < |t| ensures s[0].mtime <= t[j].mtime {
        assert t[j] in multiset(t);
        assert t[j] == e || t[j] in rest;
      }
      Prepend(s[0], t);
    }
  }

  lemma Prepend(e: Entry, t: seq<Entry>)
    requires Ascending(t) && forall j :: 0 <= j < |t| ==> e.mtime <= t[j].mtime
    ensures Ascending([e] + t)
  {
  }

  lemma {:induction false} ByTimeSorted(s: seq<Entry>)
    ensures Ascending(ByTime(s)) && multiset(ByTime(s)) == multiset(s) && |ByTime(s)| == |s|
  {
    if s != [] {
      ByTimeSorted(s[1..]);
      InsertSorted(s[0], ByTime(s[1..]));
      InsertMembers(s[0], ByTime(s[1..]));
      assert s == [s[0]] + s[1..];
    }
  }

  function Unprotected(s: seq<Entry>, guarded: Option<Name>): seq<Entry> {
    if s == [] then []
    else if guarded == Some(s[0].id) then Unprotected(s[1..], guarded)
    else [s[0]] + Unprotected(s[1..], guarded)
  }

  lemma {:induction false} UnprotectedMembers(s: seq<Entry>, guarded: Option<Name>, e: Entry)
    ensures e in Unprotected(s, guarded) <==> e in s && guarded != Some(e.id)
  {
    if s != [] {
      UnprotectedMembers(s[1..], guarded, e);
      assert s == [s[0]] + s[1..];
    }
  }

  const KEPT := 3

  /** `removable[:-3]`. */
  function Expired(backups: seq<Entry>, guarded: Option<Name>): seq<Entry> {
    var removable := Unprotected(ByTime(backups), guarded);
    if |removable| <= KEPT then [] else removable[..|removable| - KEPT]
  }

  function Drop(s: seq<Entry>, gone: seq<Entry>): seq<Entry> {
    if s == [] then [] else if s[0] in gone then Drop(s[1..], gone) else [s[0]] + Drop(s[1..], gone)
  }

  /** What is left in the backup directory after `_backup_state` pruned it. */
  function Pruned(backups: seq<Entry>, guarded: Option<Name>): seq<Entry> {
    Drop(backups, Expired(backups, guarded))
  }

  lemma {:induction false} DropMembers(s: seq<Entry>, gone: seq<Entry>, e: Entry)
    ensures e in Drop(s, gone) <==> e in s && e !in gone
  {
    if s != [] {
      DropMembers(s[1..], gone, e);
      assert s == [s[0]] + s[1..];
    }
  }

  lemma DropOneMore(s: seq<Entry>, gone: seq<Entry>, i: nat)
    requires i < |gone|
    ensures Drop(Drop(s, gone[..i]), [gone[i]]) == Drop(s, gone[..i + 1])
  {
    assert gone[..i + 1] == gone[..i] + [gone[i]];
    DropTwice(s, gone[..i], gone[i]);
  }

  lemma {:induction false} DropTwice(s: seq<Entry>, gone: seq<Entry>, e: Entry)
    ensures Drop(Drop(s, gone), [e]) == Drop(s, gone + [e])
  {
    if s != [] {
      DropTwice(s[1..], gone, e);
      if s[0] !in gone {
        assert ([s[0]] + Drop(s[1..], gone))[1..] == Drop(s[1..], gone);
      }
    }
  }

  lemma {:induction false} DropNone(s: seq<Entry>)
    ensures Drop(s, []) == s
  {
    if s != [] {
      DropNone(s[1..]);
    }
  }

  /** The deletion loop that ends `_backup_state`. */
  method PruneBackups(backups: seq<Entry>, guarded: Option<Name>) returns (kept: seq<Entry>)
    ensures kept == Pruned(backups, guarded)
  {
    var expired := Expired(backups, guarded);
    kept := backups;
    DropNone(backups);
    hide Drop, Expired;
    var i := 0;
    while i < |expired|
      invariant i <= |expired| && kept == Drop(backups, expired[..i])
    {
      DropOneMore(backups, expired, i);
      kept := Drop(kept, [expired[i]]);
      i := i + 1;
    }
    assert expired[..i] == expired;
  }

  /** A backup is kept exactly when it is protected or one of the newest three of the others. */
  lemma PrunedExact(backups: seq<Entry>, guarded: Option<Name>, e: Entry)
    ensures var removable := Unprotected(ByTime(backups), guarded);
      e in Pruned(backups, guarded) <==>
      e in backups && (|removable| <= KEPT || e !in removable[..|removable| - KEPT])
  {
    DropMembers(backups, Expired(backups, guarded), e);
  }

  /** The protected backup is never deleted. */
  lemma ProtectedSurvives(backups: seq<Entry>, guarded: Option<Name>, e: Entry)
    requires e in backups && guarded == Some(e.id)
    ensures e in Pruned(backups, guarded)
  {
    PrunedExact(backups, guarded, e);
    UnprotectedMembers(ByTime(backups), guarded, e);
  }

  /** A kept unprotected backup is among the last three in time order. */
  lemma KeptIsLate(backups: seq<Entry>, guarded: Option<Name>, e: Entry) returns (i: nat)
    requires e in Pruned(backups, guarded) && guarded != Some(e.id)
    ensures i < |Unprotected(ByTime(backups), guarded)| <= i + KEPT
    ensures Unprotected(ByTime(backups), guarded)[i] == e
  {
    var removable := Unprotected(ByTime(backups), guarded);
    PrunedExact(backups, guarded, e);
    ByTimeSorted(backups);
    UnprotectedMembers(ByTime(backups), guarded, e);
    hide Unprotected, ByTime, Pruned, Ascending;
    assert e in multiset(ByTime(backups));
    i :| 0 <= i < |removable| && removable[i] == e;
    var n := |removable| - KEPT;
    if n > 0 {
      assert forall k :: 0 <= k < n ==> removable[..n][k] != e;
    }
  }

  /** At most three unprotected backups survive each prune. */
  lemma AtMostThreeOthers(backups: seq<Entry>, guarded: Option<Name>)
    ensures |set e | e in Pruned(backups, guarded) && guarded != Some(e.id)| <= KEPT
  {
    hide Unprotected, ByTime, Pruned;
    var removable := Unprotected(ByTime(backups), guarded);
    var kept := set e | e in Pruned(backups, guarded) && guarded != Some(e.id);
    var n := if |removable| <= KEPT then 0 else |removable| - KEPT;
    var latest := set i | n <= i < |removable| :: removable[i];
    forall e | e in kept ensures e in latest {
      var i := KeptIsLate(backups, guarded, e);
    }
    FewNewest(removable, n);
    SubsetSize(kept, latest);
  }

  lemma {:induction false} FewNewest(s: seq<Entry>, n: nat)
    requires n <= |s|
    ensures |set i | n <= i < |s| :: s[i]| <= |s| - n
    decreases |s| - n
  {
    var all := set i | n <= i < |s| :: s[i];
    if n < |s| {
      var rest := set i | n + 1 <= i < |s| :: s[i];
      FewNewest(s, n + 1);
      assert all == rest + {s[n]};
    }
  }

  lemma {:induction false} SubsetSize<T>(a: set<T>, b: set<T>)
    requires a <= b
    ensures |a| <= |b|
  {
    if a != {} {
      var x :| x in a;
      SubsetSize(a - {x}, b - {x});
    }
  }

  /** Nothing kept is older than something deleted, among unprotected backups. */
  lemma OldestGoFirst(backups: seq<Entry>, guarded: Option<Name>, kept: Entry, gone: Entry)
    requires kept in Pruned(backups, guarded) && guarded != Some(kept.id)
    requires gone in backups && gone !in Pruned(backups, guarded)
    ensures gone.mtime <= kept.mtime
  {
    hide Unprotected, ByTime, Pruned;
    var removable := Unprotected(ByTime(backups), guarded);
    PrunedExact(backups, guarded, gone);
    ByTimeSorted(backups);
    UnprotectedAscending(ByTime(backups), guarded);
    var i := KeptIsLate(backups, guarded, kept);
    var n := |removable| - KEPT;
    var j :| 0 <= j < n && removable[..n][j] == gone;
  }

  lemma {:induction false} UnprotectedAscending(s: seq<Entry>, guarded: Option<Name>)
    requires Ascending(s)
    ensures Ascending(Unprotected(s, guarded))
  {
    if s != [] {
      UnprotectedAscending(s[1..], guarded);
      var t := Unprotected(s[1..], guarded);
      forall j | 0 <= j < |t| ensures s[0].mtime <= t[j].mtime {
        UnprotectedMembers(s[1..], guarded, t[j]);
        var k :| 0 <= k < |s[1..]| && s[1..][k] == t[j];
        assert s[k + 1] == t[j];
      }
    }
  }

  ghost predicate NoRepeats(s: seq<Entry>) {
    forall i, j :: 0 <= i < j < |s| ==> s[i] != s[j]
  }

  lemma {:induction false} CountOnce(s: seq<Entry>, e: Entry)
    requires NoRepeats(s)
    ensures multiset(s)[e] <= 1
  {
    if s != [] {
      CountOnce(s[1..], e);
      assert s == [s[0]] + s[1..];
      if e == s[0] {
        assert e !in s[1..];
      }
    }
  }

  lemma SplitCount(s: seq<Entry>, i: nat, j: nat)
    requires i < j < |s| && s[i] == s[j]
    ensures multiset(s)[s[i]] >= 2
  {
    assert s == s[..j] + [s[j]] + s[j + 1..];
    assert s[..j][i] == s[i];
    assert s[i] in multiset(s[..j]);
  }

  lemma {:induction false} UnprotectedCount(s: seq<Entry>, guarded: Option<Name>)
    ensures multiset(Unprotected(s, guarded)) <= multiset(s)
  {
    if s != [] {
      UnprotectedCount(s[1..], guarded);
      assert s == [s[0]] + s[1..];
    }
  }

  /** The unprotected backups in time order are the unprotected backups, each once. */
  lemma RemovableFacts(backups: seq<Entry>, guarded: Option<Name>)
    requires NoRepeats(backups)
    ensures var removable := Unprotected(ByTime(backups), guarded);
      && NoRepeats(removable) && Ascending(removable)
      && forall e :: e in removable <==> e in backups && guarded != Some(e.id)
  {
    var removable := Unprotected(ByTime(backups), guarded);
    ByTimeSorted(backups);
    UnprotectedAscending(ByTime(backups), guarded);
    UnprotectedCount(ByTime(backups), guarded);
    forall i, j | 0 <= i < j < |removable| ensures removable[i] != removable[j] {
      if removable[i] == removable[j] {
        SplitCount(removable, i, j);
        CountOnce(backups, removable[i]);
      }
    }
    forall e ensures e in removable <==> e in backups && guarded != Some(e.id) {
      UnprotectedMembers(ByTime(backups), guarded, e);
      assert e in ByTime(backups) <==> e in multiset(ByTime(backups));
    }
  }

  lemma {:induction false} SizeFrom(s: seq<Entry>, n: nat)
    requires n <= |s| && NoRepeats(s)
    ensures |set i | n <= i < |s| :: s[i]| == |s| - n
    decreases |s| - n
  {
    var all := set i | n <= i < |s| :: s[i];
    if n < |s| {
      var rest := set i | n + 1 <= i < |s| :: s[i];
      SizeFrom(s, n + 1);
      assert all == rest + {s[n]} && s[n] !in rest;
    }
  }

  /** `b` comes somewhere after `a` in the listing. */
  ghost predicate ListedAfter(s: seq<Entry>, a: Entry, b: Entry) {
    exists i, j :: 0 <= i < j < |s| && s[i] == a && s[j] == b
  }

  /** How the stable sort places two entries of a listing: by time, equal times as listed. */
  ghost predicate Precedes(listing: seq<Entry>, a: Entry, b: Entry) {
    a.mtime < b.mtime || (a.mtime == b.mtime && ListedAfter(listing, a, b))
  }

  ghost predicate StableOrder(listing: seq<Entry>, s: seq<Entry>) {
    forall i, j :: 0 <= i < j < |s| ==> Precedes(listing, s[i], s[j])
  }

  lemma PrecedesCons(x: Entry, listing: seq<Entry>, a: Entry, b: Entry)
    requires Precedes(listing, a, b)
    ensures Precedes([x] + listing, a, b)
  {
    if a.mtime == b.mtime {
      var i, j :| 0 <= i < j < |listing| && listing[i] == a && listing[j] == b;
      assert ([x] + listing)[i + 1] == a && ([x] + listing)[j + 1] == b;
    }
  }

  lemma HeadListedBefore(x: Entry, listing: seq<Entry>, b: Entry)
    requires b in listing
    ensures ListedAfter([x] + listing, x, b)
  {
    var j :| 0 <= j < |listing| && listing[j] == b;
    assert ([x] + listing)[0] == x && ([x] + listing)[j + 1] == b;
  }

  lemma {:induction false} InsertStable(e: Entry, listing: seq<Entry>, s: seq<Entry>)
    requires StableOrder(listing, s) && forall x :: x in s ==> x in listing
    ensures StableOrder([e] + listing, InsertByTime(e, s))
  {
    hide ListedAfter, Precedes;
    var all, r := [e] + listing, InsertByTime(e, s);
    if s == [] || e.mtime <= s[0].mtime {
      forall j | 0 <= j < |s| ensures Precedes(all, e, s[j]) {
        HeadFirst(e, listing, s, j);
      }
      forall i, j | 0 <= i < j < |s| ensures Precedes(all, s[i], s[j]) {
        PrecedesCons(e, listing, s[i], s[j]);
      }
      assert r == [e] + s;
    } else {
      var tail := s[1..];
      assert forall i :: 0 <= i < |tail| ==> tail[i] == s[i + 1];
      InsertStable(e, listing, tail);
      forall x | x in InsertByTime(e, tail) ensures Precedes(all, s[0], x) {
        InsertedAfterHead(e, listing, s, x);
      }
      assert r == [s[0]] + InsertByTime(e, tail);
    }
  }

  /** The inserted entry was listed before all others, so it precedes what is not earlier. */
  lemma HeadFirst(e: Entry, listing: seq<Entry>, s: seq<Entry>, j: nat)
    requires StableOrder(listing, s) && j < |s| && s[j] in listing && e.mtime <= s[0].mtime
    ensures Precedes([e] + listing, e, s[j])
  {
    HeadListedBefore(e, listing, s[j]);
    hide ListedAfter;
    assert j > 0 ==> Precedes(listing, s[0], s[j]);
  }

  lemma InsertedAfterHead(e: Entry, listing: seq<Entry>, s: seq<Entry>, x: Entry)
    requires s != [] && StableOrder(listing, s) && s[0].mtime < e.mtime && x in InsertByTime(e, s[1..])
    ensures Precedes([e] + listing, s[0], x)
  {
    hide ListedAfter;
    InsertMembers(e, s[1..]);
    assert x in multiset(InsertByTime(e, s[1..]));
    if x != e {
      var k :| 0 <= k < |s[1..]| && s[1..][k] == x;
      assert Precedes(listing, s[0], s[k + 1]);
      PrecedesCons(e, listing, s[0], x);
    }
  }

  lemma {:induction false} ByTimeStable(s: seq<Entry>)
    ensures StableOrder(s, ByTime(s))
  {
    if s != [] {
      ByTimeStable(s[1..]);
      ByTimeSorted(s[1..]);
      forall x | x in ByTime(s[1..]) ensures x in s[1..] {
        assert x in multiset(ByTime(s[1..]));
      }
      InsertStable(s[0], s[1..], ByTime(s[1..]));
      assert s == [s[0]] + s[1..];
    }
  }

  lemma {:induction false} UnprotectedStable(listing: seq<Entry>, s: seq<Entry>, guarded: Option<Name>)
    requires StableOrder(listing, s)
    ensures StableOrder(listing, Unprotected(s, guarded))
  {
    hide Precedes;
    if s != [] {
      assert forall i :: 0 <= i < |s[1..]| ==> s[1..][i] == s[i + 1];
      UnprotectedStable(listing, s[1..], guarded);
      var t := Unprotected(s[1..], guarded);
      forall j | 0 <= j < |t| ensures Precedes(listing, s[0], t[j]) {
        UnprotectedMembers(s[1..], guarded, t[j]);
        var k :| 0 <= k < |s[1..]| && s[1..][k] == t[j];
        assert s[k + 1] == t[j];
      }
    }
  }

  /** The unprotected backups that the prune prefers to `e`: later ones, and equally old ones listed later. */
  ghost function Preferred(backups: seq<Entry>, guarded: Option<Name>, e: Entry): set<Entry> {
    set x | x in backups && guarded != Some(x.id) && Precedes(backups, e, x)
  }

  /**
   * Exactly when an unprotected backup survives: at most two unprotected backups
   * are later, or equally old and listed after it.
   */
  lemma SurvivesExactly(backups: seq<Entry>, guarded: Option<Name>, e: Entry)
    requires NoRepeats(backups) && e in backups && guarded != Some(e.id)
    ensures e in Pruned(backups, guarded) <==> |Preferred(backups, guarded, e)| < KEPT
  {
    hide Unprotected, ByTime, Pruned, Precedes;
    var removable := Unprotected(ByTime(backups), guarded);
    RemovableFacts(backups, guarded);
    PrunedExact(backups, guarded, e);
    ByTimeStable(backups);
    UnprotectedStable(backups, ByTime(backups), guarded);
    var i :| 0 <= i < |removable| && removable[i] == e;
    PreferredIsAfter(backups, guarded, removable, i);
    if |removable| > KEPT {
      PrefixMember(removable, i, |removable| - KEPT);
    }
  }

  lemma PrefixMember(s: seq<Entry>, i: nat, n: nat)
    requires NoRepeats(s) && i < |s| && n <= |s|
    ensures s[i] in s[..n] <==> i < n
  {
    if i < n {
      assert s[..n][i] == s[i];
    }
  }

  lemma PrecedesOneWay(listing: seq<Entry>, a: Entry, b: Entry)
    requires NoRepeats(listing) && Precedes(listing, a, b)
    ensures !Precedes(listing, b, a)
  {
    if a.mtime == b.mtime {
      var i, j :| 0 <= i < j < |listing| && listing[i] == a && listing[j] == b;
      forall k, l | 0 <= k < l < |listing| && listing[k] == b ensures listing[l] != a {
        assert k == j;
      }
    }
  }

  lemma PreferredIsAfter(backups: seq<Entry>, guarded: Option<Name>, s: seq<Entry>, i: nat)
    requires NoRepeats(backups) && NoRepeats(s) && StableOrder(backups, s) && i < |s|
    requires forall x :: x in s <==> x in backups && guarded != Some(x.id)
    ensures |Preferred(backups, guarded, s[i])| == |s| - 1 - i
  {
    hide Precedes, NoRepeats;
    var after := set k | i + 1 <= k < |s| :: s[k];
    forall x ensures x in Preferred(backups, guarded, s[i]) <==> x in after {
      if x in s {
        var k :| 0 <= k < |s| && s[k] == x;
        if k <= i {
          NotPreferred(backups, s, i, k);
        } else {
          assert Precedes(backups, s[i], s[k]);
        }
      }
    }
    assert Preferred(backups, guarded, s[i]) == after;
    SizeFrom(s, i + 1);
  }

  lemma NotPreferred(backups: seq<Entry>, s: seq<Entry>, i: nat, k: nat)
    requires NoRepeats(backups) && StableOrder(backups, s) && k <= i < |s|
    ensures !Precedes(backups, s[i], s[k])
  {
    if k < i {
      PrecedesOneWay(backups, s[k], s[i]);
    } else if Precedes(backups, s[i], s[i]) {
      PrecedesOneWay(backups, s[i], s[i]);
    }
  }

  /** A clock set back can let pruning delete the backup just written. */
  lemma FreshLostToClock(a: Name, b: Name, c: Name, newest: Name)
    requires newest != a && newest != b && newest != c
    ensures var backups := [Entry(a, 10), Entry(b, 11), Entry(c, 12), Entry(newest, 5)];
      Entry(newest, 5) !in Pruned(backups, None)
  {
    var x, y, z, f := Entry(a, 10), Entry(b, 11), Entry(c, 12), Entry(newest, 5);
    var backups := [x, y, z, f];
    assert backups[1..] == [y, z, f] && [y, z, f][1..] == [z, f] && [z, f][1..] == [f] && [f][1..] == [];
    assert ByTime([f]) == [f];
    assert ByTime([z, f]) == [f, z] by {
      assert InsertByTime(z, [f]) == [f] + InsertByTime(z, []);
    }
    assert ByTime([y, z, f]) == [f, y, z] by {
      assert [f, z][1..] == [z];
      assert InsertByTime(y, [f, z]) == [f] + InsertByTime(y, [z]);
    }
    assert ByTime(backups) == [f, x, y, z] by {
      assert [f, y, z][1..] == [y, z];
      assert InsertByTime(x, [f, y, z]) == [f] + InsertByTime(x, [y, z]);
    }
    AllUnprotected([f, x, y, z]);
    assert [f, x, y, z][..1] == [f];
    PrunedExact(backups, None, f);
  }

  /** So can three backups with the same time that the directory lists later. */
  lemma FreshLostToTie(a: Name, b: Name, c: Name, newest: Name, t: int)
    requires newest != a && newest != b && newest != c && a != b && a != c && b != c
    ensures var backups := [Entry(newest, t), Entry(a, t), Entry(b, t), Entry(c, t)];
      Entry(newest, t) !in Pruned(backups, None)
  {
    var f, x, y, z := Entry(newest, t), Entry(a, t), Entry(b, t), Entry(c, t);
    var backups := [f, x, y, z];
    assert backups[0] == f && backups[1] == x && backups[2] == y && backups[3] == z;
    assert forall e :: e in {x, y, z} ==> Precedes(backups, f, e);
    hide Precedes, ListedAfter;
    assert {x, y, z} <= Preferred(backups, None, f);
    SubsetSize({x, y, z}, Preferred(backups, None, f));
    SurvivesExactly(backups, None, f);
  }

  lemma {:induction false} AllUnprotected(s: seq<Entry>)
    ensures Unprotected(s, None) == s
  {
    if s != [] {
      AllUnprotected(s[1..]);
      assert s == [s[0]] + s[1..];
    }
  }

  // ---------------------------------------------------------------- histories

  /** The backup directory, and the legacy predecessor named by the installed manifest if any. */
  datatype Store = Store(backups: seq<Entry>, installed: bool, legacy: Option<Name>)

  /** `_retained_legacy_bridge_evidence`: what the new manifest names. */
  function Retained(s: Store, bridge: bool, backup: Name): Option<Name> {
    if bridge then Some(backup) else if !s.installed then None else s.legacy
  }

  /**
   * A transaction takes its backup first, then commits, or fails and is undone or
   * recovered.  `listing` is the order in which the directory lists the backups.
   */
  datatype Event =
    | Bridge(backup: Entry, listing: seq<Entry>, commits: bool)
    | FirstInstall(backup: Entry, listing: seq<Entry>, commits: bool)
    | Upgrade(backup: Entry, listing: seq<Entry>, commits: bool)
    | Rollback(backup: Entry, listing: seq<Entry>, commits: bool)
    | LegacyRollback(backup: Entry, listing: seq<Entry>, commits: bool)

  /** `_backup_state`: the manifest still in place decides what is protected. */
  function TakeBackup(s: Store, listing: seq<Entry>): Store {
    s.(backups := Pruned(listing, s.legacy))
  }

  /** A transaction whose fresh backup was pruned away cannot go on: its snapshots have nowhere to go. */
  function Happen(s: Store, ev: Event): Store {
    var t := TakeBackup(s, ev.listing);
    if !ev.commits || ev.backup !in t.backups then t
    else match ev
      case Bridge(b, _, _) => t.(installed := true, legacy := Retained(s, true, b.id))
      case FirstInstall(b, _, _) => t.(installed := true, legacy := Retained(s, false, b.id))
      case Upgrade(b, _, _) => t.(installed := true, legacy := Retained(s, false, b.id))
      case Rollback(_, _, _) => t
      case LegacyRollback(_, _, _) => t.(installed := false, legacy := None)
  }

  /** Each event in the situation its command requires, with a freshly created directory. */
  predicate Allowed(s: Store, ev: Event) {
    && (forall e :: e in s.backups ==> e.id != ev.backup.id)
    && multiset(ev.listing) == multiset(s.backups) + multiset{ev.backup}
    && match ev
       case Bridge(_, _, _) => !s.installed
       case FirstInstall(_, _, _) => !s.installed
       case Upgrade(_, _, _) => s.installed
       case Rollback(_, _, _) => s.installed
       case LegacyRollback(_, _, _) => s.installed && s.legacy.Some?
  }

  function History(s: Store, evs: seq<Event>): Store
    decreases |evs|
  {
    if evs == [] then s else History(Happen(s, evs[0]), evs[1..])
  }

  ghost predicate AllAllowed(s: Store, evs: seq<Event>)
    decreases |evs|
  {
    evs == [] || (Allowed(s, evs[0]) && AllAllowed(Happen(s, evs[0]), evs[1..]))
  }

  /** A named predecessor is in the backup directory. */
  ghost predicate Kept(s: Store) {
    && (s.legacy.Some? ==> s.installed && exists e :: e in s.backups && s.legacy == Some(e.id))
  }

  lemma HappenKeeps(s: Store, ev: Event)
    requires Kept(s) && Allowed(s, ev)
    ensures Kept(Happen(s, ev))
    ensures s.legacy.Some? && !ev.LegacyRollback? ==> Happen(s, ev).legacy == s.legacy
  {
    var t := TakeBackup(s, ev.listing);
    if s.legacy.Some? {
      var e :| e in s.backups && s.legacy == Some(e.id);
      assert e in multiset(ev.listing);
      ProtectedSurvives(ev.listing, s.legacy, e);
      assert e in t.backups;
    }
    if ev.Bridge? && ev.commits && ev.backup in t.backups {
      assert Happen(s, ev).legacy == Some(ev.backup.id);
    }
  }

  /**
   * Once the manifest names a predecessor backup, every later manifest names the
   * same one and it is never deleted, whatever succeeds or fails in between, as
   * long as no legacy rollback happens.
   */
  lemma {:induction false} PredecessorRetained(s: Store, evs: seq<Event>)
    requires Kept(s) && AllAllowed(s, evs)
    ensures Kept(History(s, evs))
    ensures s.legacy.Some? && (forall i :: 0 <= i < |evs| ==> !evs[i].LegacyRollback?) ==>
      History(s, evs).legacy == s.legacy
    decreases |evs|
  {
    if evs != [] {
      HappenKeeps(s, evs[0]);
      PredecessorRetained(Happen(s, evs[0]), evs[1..]);
    }
  }

  /** The prune after taking a backup leaves this one: it is the named one, or fewer than three are preferred. */
  ghost predicate Stays(s: Store, listing: seq<Entry>, e: Entry) {
    e in listing && (s.legacy == Some(e.id) || |Preferred(listing, s.legacy, e)| < 3)
  }

  /**
   * What one transaction leaves.  A committed bridge names its own backup, a first
   * install and a legacy rollback name none, every other one keeps the name; the
   * named backup and those with fewer than three preferred ones are kept.
   */
  lemma HappenExact(s: Store, ev: Event)
    requires Allowed(s, ev) && NoRepeats(ev.listing)
    ensures var t := Happen(s, ev);
      && (forall e :: e in t.backups <==> Stays(s, ev.listing, e))
      && if !ev.commits || ev.backup !in t.backups || ev.Rollback? then
           t.installed == s.installed && t.legacy == s.legacy
         else
           && t.installed == !ev.LegacyRollback?
           && t.legacy == if ev.Bridge? then Some(ev.backup.id) else if ev.Upgrade? then s.legacy else None
  {
    hide NoRepeats, Pruned, Preferred;
    var t := TakeBackup(s, ev.listing);
    forall e ensures e in t.backups <==> Stays(s, ev.listing, e) {
      if e in ev.listing && s.legacy == Some(e.id) {
        ProtectedSurvives(ev.listing, s.legacy, e);
      } else if e in ev.listing {
        SurvivesExactly(ev.listing, s.legacy, e);
      } else {
        PrunedExact(ev.listing, s.legacy, e);
      }
    }
  }

  /** After a completed bridge its backup stays named and present until a legacy rollback. */
  lemma BridgeEvidenceLasts(s: Store, ev: Event, evs: seq<Event>)
    requires Kept(s) && AllAllowed(s, [ev] + evs)
    requires ev.Bridge? && ev.commits && ev.backup in Happen(s, ev).backups
    requires forall i :: 0 <= i < |evs| ==> !evs[i].LegacyRollback?
    ensures var t := History(Happen(s, ev), evs);
      t.legacy == Some(ev.backup.id) && exists e :: e in t.backups && e.id == ev.backup.id
  {
    assert ([ev] + evs)[1..] == evs;
    HappenKeeps(s, ev);
    hide Kept;
    var m := Happen(s, ev);
    assert m.legacy == Some(ev.backup.id);
    PredecessorRetained(m, evs);
    assert Kept(History(m, evs));
    NamedIsPresent(History(m, evs), ev.backup.id);
  }

  lemma NamedIsPresent(s: Store, id: Name)
    requires Kept(s) && s.legacy == Some(id)
    ensures exists e :: e in s.backups && e.id == id
  {
  }
}
