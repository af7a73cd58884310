/**
 * `EventBus`: listener lists, cancellable handles and shared offload wrappers,
 * kept consistent by every operation.
 */
module EventBus {

  type Event = nat
  type Callback = nat

  /** A list entry: a user callback, or the wrapper object made for an offloaded one. */
  datatype Listener = Direct(callback: Callback) | Wrapper(callback: Callback, serial: nat)

  /** A live registration: `_handles[id] == (event, original, actual)`. */
  datatype Handle = Handle(id: nat, event: Event, original: Callback, actual: Listener)

  /** `handles` is in insertion order; `cancelled` logs the handles whose `cancel` returned True. */
  datatype State = State(subscribers: map<Event, seq<Listener>>, handles: seq<Handle>,
                         offloadMap: map<Callback, Listener>, nextId: nat, nextSerial: nat,
                         isShutdown: bool, cancelled: seq<nat>)

  function Listeners(s: State, e: Event): seq<Listener> {
    if e in s.subscribers then s.subscribers[e] else []
  }

  /** `list.remove`: the first occurrence goes. */
  function RemoveFirst(s: seq<Listener>, x: Listener): seq<Listener> {
    if s == [] then [] else if s[0] == x then s[1..] else [s[0]] + RemoveFirst(s[1..], x)
  }

  function RemoveAll(s: seq<Listener>, x: Listener): seq<Listener> {
    if s == [] then [] else if s[0] == x then RemoveAll(s[1..], x) else [s[0]] + RemoveAll(s[1..], x)
  }

  function Count(s: seq<Listener>, x: Listener): nat {
    if s == [] then 0 else (if s[0] == x then 1 else 0) + Count(s[1..], x)
  }

  /** How many live handles stand for this listener on this event. */
  function Live(hs: seq<Handle>, e: Event, x: Listener): nat {
    if hs == [] then 0 else (if hs[0].event == e && hs[0].actual == x then 1 else 0) + Live(hs[1..], e, x)
  }

  lemma {:induction false} CountAppend(s: seq<Listener>, y: Listener, x: Listener)
    ensures Count(s + [y], x) == Count(s, x) + if y == x then 1 else 0
  {
    if s == [] {
      assert [] + [y] == [y] && [y][1..] == [];
    } else {
      assert (s + [y])[0] == s[0] && (s + [y])[1..] == s[1..] + [y];
      CountAppend(s[1..], y, x);
    }
  }

  lemma {:induction false} CountMember(s: seq<Listener>, x: Listener)
    ensures x in s <==> Count(s, x) > 0
  {
    if s != [] {
      CountMember(s[1..], x);
      assert s == [s[0]] + s[1..];
    }
  }

  lemma {:induction false} CountRemoveFirst(s: seq<Listener>, y: Listener, x: Listener)
    requires y in s
    ensures Count(RemoveFirst(s, y), x) == Count(s, x) - if x == y then 1 else 0
  {
    CountMember(s, y);
    if s[0] != y {
      assert s == [s[0]] + s[1..];
      CountRemoveFirst(s[1..], y, x);
      assert ([s[0]] + RemoveFirst(s[1..], y))[1..] == RemoveFirst(s[1..], y);
    }
  }

  lemma {:induction false} CountRemoveAll(s: seq<Listener>, y: Listener, x: Listener)
    ensures Count(RemoveAll(s, y), x) == if x == y then 0 else Count(s, x)
  {
    if s != [] {
      CountRemoveAll(s[1..], y, x);
      if s[0] != y {
        assert ([s[0]] + RemoveAll(s[1..], y))[1..] == RemoveAll(s[1..], y);
      }
    }
  }

  lemma {:induction false} LiveAppend(hs: seq<Handle>, h: Handle, e: Event, x: Listener)
    ensures Live(hs + [h], e, x) == Live(hs, e, x) + if h.event == e && h.actual == x then 1 else 0
  {
    if hs == [] {
      assert [] + [h] == [h] && [h][1..] == [];
    } else {
      assert (hs + [h])[0] == hs[0] && (hs + [h])[1..] == hs[1..] + [h];
      LiveAppend(hs[1..], h, e, x);
    }
  }

  lemma {:induction false} LiveMember(hs: seq<Handle>, h: Handle)
    requires h in hs
    ensures Live(hs, h.event, h.actual) > 0
  {
    if hs[0] != h {
      assert hs == [hs[0]] + hs[1..];
      LiveMember(hs[1..], h);
    }
  }

  function Without(hs: seq<Handle>, i: nat): seq<Handle>
    requires i < |hs|
  {
    hs[..i] + hs[i + 1..]
  }

  lemma {:induction false} LiveWithout(hs: seq<Handle>, i: nat, e: Event, x: Listener)
    requires i < |hs|
    ensures Live(Without(hs, i), e, x) == Live(hs, e, x) - if hs[i].event == e && hs[i].actual == x then 1 else 0
  {
    if i == 0 {
      assert Without(hs, 0) == hs[1..];
    } else {
      assert Without(hs, i)[0] == hs[0] && Without(hs, i)[1..] == Without(hs[1..], i - 1);
      LiveWithout(hs[1..], i - 1, e, x);
    }
  }

  // ---------------------------------------------------------------- operations

  /** `_remove_wrapper_if_unused`. */
  function DropUnused(s: State, original: Callback, actual: Listener): State {
    if actual.Direct? || exists e :: e in s.subscribers && actual in s.subscribers[e] then s
    else s.(offloadMap := s.offloadMap - {original})
  }

  function Register(s: State, e: Event, original: Callback, actual: Listener): State {
    s.(subscribers := s.subscribers[e := Listeners(s, e) + [actual]],
       handles := s.handles + [Handle(s.nextId, e, original, actual)], nextId := s.nextId + 1)
  }

  function Subscribe(s: State, e: Event, cb: Callback): State {
    if s.isShutdown then s else Register(s, e, cb, Direct(cb))
  }

  function SubscribeOffloaded(s: State, e: Event, cb: Callback): State {
    if s.isShutdown then s
    else if cb in s.offloadMap then Register(s, e, cb, s.offloadMap[cb])
    else
      var w := Wrapper(cb, s.nextSerial);
      Register(s.(offloadMap := s.offloadMap[cb := w], nextSerial := s.nextSerial + 1), e, cb, w)
  }

  /** The position of the first handle satisfying a test on its fields, or the length. */
  function FindId(hs: seq<Handle>, id: nat): (i: nat)
    ensures i <= |hs| && (i < |hs| ==> hs[i].id == id)
    ensures forall j :: 0 <= j < i ==> hs[j].id != id
  {
    if hs == [] || hs[0].id == id then 0 else 1 + FindId(hs[1..], id)
  }

  function FindRegistration(hs: seq<Handle>, e: Event, cb: Callback, actual: Listener): (i: nat)
    ensures i <= |hs| && (i < |hs| ==> hs[i].event == e && hs[i].original == cb && hs[i].actual == actual)
    ensures forall j :: 0 <= j < i ==> !(hs[j].event == e && hs[j].original == cb && hs[j].actual == actual)
  {
    if hs == [] || (hs[0].event == e && hs[0].original == cb && hs[0].actual == actual) then 0
    else 1 + FindRegistration(hs[1..], e, cb, actual)
  }

  /** `_unsubscribe_handle`. */
  function Cancel(s: State, id: nat): (State, bool) {
    var i := FindId(s.handles, id);
    if i == |s.handles| then (s, false)
    else
      var h := s.handles[i];
      var t := s.(handles := Without(s.handles, i));
      if h.actual !in Listeners(s, h.event) then (t, false)
      else
        var u := t.(subscribers := t.subscribers[h.event := RemoveFirst(Listeners(s, h.event), h.actual)],
                    cancelled := s.cancelled + [id]);
        (DropUnused(u, h.original, h.actual), true)
  }

  function ActualOf(s: State, cb: Callback): Listener {
    if cb in s.offloadMap then s.offloadMap[cb] else Direct(cb)
  }

  function Unsubscribe(s: State, e: Event, cb: Callback): (State, bool) {
    var actual := ActualOf(s, cb);
    if actual !in Listeners(s, e) then (s, false)
    else
      var t := s.(subscribers := s.subscribers[e := RemoveFirst(Listeners(s, e), actual)]);
      var i := FindRegistration(s.handles, e, cb, actual);
      var u := if i == |s.handles| then t else t.(handles := Without(s.handles, i));
      (DropUnused(u, cb, actual), true)
  }

  function NotOriginal(hs: seq<Handle>, cb: Callback): seq<Handle> {
    if hs == [] then []
    else if hs[0].original == cb || hs[0].actual == Direct(cb) then NotOriginal(hs[1..], cb)
    else [hs[0]] + NotOriginal(hs[1..], cb)
  }

  function UnsubscribeAll(s: State, cb: Callback): State {
    var actual := ActualOf(s, cb);
    s.(subscribers := map e | e in s.subscribers :: RemoveAll(s.subscribers[e], actual),
       handles := NotOriginal(s.handles, cb),
       offloadMap := s.offloadMap - {cb})
  }

  function Shutdown(s: State): State {
    if s.isShutdown then s
    else s.(isShutdown := true, subscribers := map[], handles := [], offloadMap := map[])
  }

  // ---------------------------------------------------------------- the invariant

  ghost predicate Listed(s: State, x: Listener) {
    exists e :: x in Listeners(s, e)
  }

  /** Per event, the listeners are exactly the live handles' listeners, as a multiset. */
  ghost predicate Balanced(s: State) {
    forall e, x :: Count(Listeners(s, e), x) == Live(s.handles, e, x)
  }

  /** A callback has a wrapper exactly when that wrapper is in some listener list. */
  ghost predicate WrappersExact(s: State) {
    && (forall cb :: cb in s.offloadMap ==>
          s.offloadMap[cb].Wrapper? && s.offloadMap[cb].callback == cb && Listed(s, s.offloadMap[cb]))
    && (forall x :: Listed(s, x) && x.Wrapper? ==> x.callback in s.offloadMap && s.offloadMap[x.callback] == x)
  }

  ghost predicate HandlesValid(s: State) {
    && (forall i :: 0 <= i < |s.handles| ==>
          s.handles[i].id < s.nextId && s.handles[i].actual.callback == s.handles[i].original)
    && (forall i, j :: 0 <= i < j < |s.handles| ==> s.handles[i].id != s.handles[j].id)
    && (forall i :: 0 <= i < |s.cancelled| ==> s.cancelled[i] < s.nextId)
    && (forall i, j :: 0 <= i < |s.cancelled| && 0 <= j < |s.handles| ==> s.cancelled[i] != s.handles[j].id)
    && (forall i, j :: 0 <= i < j < |s.cancelled| ==> s.cancelled[i] != s.cancelled[j])
  }

  ghost predicate Inv(s: State) {
    Balanced(s) && WrappersExact(s) && HandlesValid(s)
  }

  lemma RegisterKeeps(s: State, e: Event, cb: Callback, x: Listener)
    requires Balanced(s) && HandlesValid(s) && x.callback == cb
    ensures Balanced(Register(s, e, cb, x)) && HandlesValid(Register(s, e, cb, x))
    ensures forall y :: Listed(Register(s, e, cb, x), y) <==> Listed(s, y) || y == x
  {
    var t := Register(s, e, cb, x);
    hide Count, Live;
    forall f, y ensures Count(Listeners(t, f), y) == Live(t.handles, f, y) {
      CountAppend(Listeners(s, e), x, y);
      LiveAppend(s.handles, Handle(s.nextId, e, cb, x), f, y);
      assert Count(Listeners(s, f), y) == Live(s.handles, f, y);
    }
    forall y ensures Listed(t, y) <==> Listed(s, y) || y == x {
      if Listed(s, y) {
        var f :| y in Listeners(s, f);
        assert y in Listeners(t, f);
      }
      assert x in Listeners(t, e);
      if Listed(t, y) && y != x {
        var f :| y in Listeners(t, f);
        assert y in Listeners(s, f);
      }
    }
  }

  /** What the offload map must satisfy, given which listeners are in some list. */
  ghost predicate MapExact(m: map<Callback, Listener>, listed: iset<Listener>) {
    && (forall cb :: cb in m ==> m[cb].Wrapper? && m[cb].callback == cb && m[cb] in listed)
    && (forall x :: x in listed && x.Wrapper? ==> x.callback in m && m[x.callback] == x)
  }

  ghost function ListedSet(s: State): iset<Listener> {
    iset x | Listed(s, x)
  }

  lemma WrappersAsMap(s: State)
    ensures WrappersExact(s) <==> MapExact(s.offloadMap, ListedSet(s))
  {
    hide Listed;
  }

  lemma SubscribeKeeps(s: State, e: Event, cb: Callback)
    requires Inv(s)
    ensures Inv(Subscribe(s, e, cb))
  {
    if !s.isShutdown {
      hide Balanced, HandlesValid, Listed;
      var t := Register(s, e, cb, Direct(cb));
      RegisterKeeps(s, e, cb, Direct(cb));
      WrappersAsMap(s);
      WrappersAsMap(t);
      hide WrappersExact;
      assert t.offloadMap == s.offloadMap;
    }
  }

  lemma MapExactAdd(m: map<Callback, Listener>, listed: iset<Listener>, cb: Callback, w: Listener)
    requires MapExact(m, listed) && w.Wrapper? && w.callback == cb && (cb in m ==> m[cb] == w)
    ensures MapExact(m[cb := w], listed + iset{w})
  {
  }

  lemma SubscribeOffloadedKeeps(s: State, e: Event, cb: Callback)
    requires Inv(s)
    ensures Inv(SubscribeOffloaded(s, e, cb))
  {
    hide Listed, Balanced, HandlesValid, MapExact;
    if !s.isShutdown {
      var w := if cb in s.offloadMap then s.offloadMap[cb] else Wrapper(cb, s.nextSerial);
      var m := if cb in s.offloadMap then s
               else s.(offloadMap := s.offloadMap[cb := w], nextSerial := s.nextSerial + 1);
      hide Register;
      WrappersAsMap(s);
      SameLists(s, m);
      var t := Register(m, e, cb, w);
      assert w.Wrapper? && w.callback == cb;
      hide WrappersExact;
      MapExactAdd(s.offloadMap, ListedSet(s), cb, w);
      RegisterKeeps(m, e, cb, w);
      RegisterMap(m, e, cb, w);
      assert t.offloadMap == s.offloadMap[cb := w];
      assert ListedSet(t) == ListedSet(s) + iset{w};
      WrappersAsMap(t);
    }
  }

  lemma RegisterMap(s: State, e: Event, cb: Callback, x: Listener)
    ensures Register(s, e, cb, x).offloadMap == s.offloadMap
  {
  }

  lemma SameLists(s: State, t: State)
    requires t.subscribers == s.subscribers && t.handles == s.handles && t.nextId == s.nextId
    requires t.cancelled == s.cancelled
    ensures Balanced(s) <==> Balanced(t)
    ensures HandlesValid(s) <==> HandlesValid(t)
    ensures forall y :: Listed(t, y) <==> Listed(s, y)
  {
    hide Count, Live;
    assert forall f :: Listeners(t, f) == Listeners(s, f);
  }

  /** Take out one registration: its handle and one occurrence of its listener. */
  function TakeOut(s: State, i: nat): State
    requires i < |s.handles|
  {
    var h := s.handles[i];
    s.(handles := Without(s.handles, i),
       subscribers := s.subscribers[h.event := RemoveFirst(Listeners(s, h.event), h.actual)])
  }

  lemma HandleIsListed(s: State, i: nat)
    requires Balanced(s) && i < |s.handles|
    ensures s.handles[i].actual in Listeners(s, s.handles[i].event)
  {
    var h := s.handles[i];
    assert h in s.handles;
    LiveMember(s.handles, h);
    CountMember(Listeners(s, h.event), h.actual);
    assert Count(Listeners(s, h.event), h.actual) == Live(s.handles, h.event, h.actual);
  }

  lemma TakeOutBalanced(s: State, i: nat)
    requires Balanced(s) && i < |s.handles|
    ensures Balanced(TakeOut(s, i))
  {
    var h, t := s.handles[i], TakeOut(s, i);
    HandleIsListed(s, i);
    hide Count, Live, Without, RemoveFirst;
    forall f, y ensures Count(Listeners(t, f), y) == Live(t.handles, f, y) {
      CountRemoveFirst(Listeners(s, h.event), h.actual, y);
      LiveWithout(s.handles, i, f, y);
      assert Count(Listeners(s, f), y) == Live(s.handles, f, y);
    }
  }

  lemma WithoutAt(hs: seq<Handle>, i: nat)
    requires i < |hs|
    ensures |Without(hs, i)| == |hs| - 1
    ensures forall j :: 0 <= j < |Without(hs, i)| ==> Without(hs, i)[j] == hs[if j < i then j else j + 1]
  {
  }

  lemma TakeOutHandles(s: State, i: nat)
    requires HandlesValid(s) && i < |s.handles|
    ensures HandlesValid(TakeOut(s, i))
    ensures HandlesValid(TakeOut(s, i).(cancelled := s.cancelled + [s.handles[i].id]))
  {
    hide RemoveFirst, Without;
    var t := TakeOut(s, i);
    TakeOutKept(s, i);
    LogKept(s, i);
  }

  lemma TakeOutKept(s: State, i: nat)
    requires HandlesValid(s) && i < |s.handles|
    ensures HandlesValid(TakeOut(s, i))
    ensures forall k :: 0 <= k < |TakeOut(s, i).handles| ==> TakeOut(s, i).handles[k].id != s.handles[i].id
  {
    hide RemoveFirst, Without;
    var hs := TakeOut(s, i).handles;
    WithoutAt(s.handles, i);
    assert hs == Without(s.handles, i);
    forall j, k | 0 <= j < k < |hs| ensures hs[j].id != hs[k].id {
      assert hs[j] == s.handles[if j < i then j else j + 1];
      assert hs[k] == s.handles[if k < i then k else k + 1];
    }
  }

  lemma LogKept(s: State, i: nat)
    requires HandlesValid(s) && i < |s.handles| && HandlesValid(TakeOut(s, i))
    requires forall k :: 0 <= k < |TakeOut(s, i).handles| ==> TakeOut(s, i).handles[k].id != s.handles[i].id
    ensures HandlesValid(TakeOut(s, i).(cancelled := s.cancelled + [s.handles[i].id]))
  {
    hide RemoveFirst, Without;
    var log := s.cancelled + [s.handles[i].id];
    assert forall k :: 0 <= k < |s.cancelled| ==> log[k] == s.cancelled[k];
  }

  lemma TakeOutListed(s: State, i: nat, y: Listener)
    requires Balanced(s) && i < |s.handles|
    ensures Listed(TakeOut(s, i), y) ==> Listed(s, y)
    ensures y != s.handles[i].actual ==> (Listed(TakeOut(s, i), y) <==> Listed(s, y))
  {
    var h, t := s.handles[i], TakeOut(s, i);
    HandleIsListed(s, i);
    CountRemoveFirst(Listeners(s, h.event), h.actual, y);
    CountMember(Listeners(s, h.event), y);
    CountMember(RemoveFirst(Listeners(s, h.event), h.actual), y);
    hide Count, RemoveFirst, Live, Without;
    assert forall f :: f != h.event ==> Listeners(t, f) == Listeners(s, f);
    if Listed(t, y) {
      var f :| y in Listeners(t, f);
      assert y in Listeners(s, f);
    }
    if Listed(s, y) && y != h.actual {
      var f :| y in Listeners(s, f);
      assert y in Listeners(t, f);
    }
  }

  lemma DropUnusedIs(s: State, cb: Callback, x: Listener)
    ensures DropUnused(s, cb, x) ==
      if x.Direct? || Listed(s, x) then s else s.(offloadMap := s.offloadMap - {cb})
  {
    if Listed(s, x) {
      var e :| x in Listeners(s, e);
      assert e in s.subscribers && x in s.subscribers[e];
    }
    if e :| e in s.subscribers && x in s.subscribers[e] {
      assert x in Listeners(s, e);
    }
  }

  lemma DropKeepsMap(m: map<Callback, Listener>, before: iset<Listener>, after: iset<Listener>,
                     cb: Callback, x: Listener)
    requires MapExact(m, before) && x in before && x.callback == cb
    requires after <= before && forall y :: y in before && y != x ==> y in after
    ensures MapExact(if x.Direct? || x in after then m else m - {cb}, after)
  {
  }

  /** Removing one registration by either route keeps the bookkeeping. */
  lemma TakeOutKeeps(s: State, i: nat, u: State)
    requires Inv(s) && i < |s.handles|
    requires u == TakeOut(s, i) || u == TakeOut(s, i).(cancelled := s.cancelled + [s.handles[i].id])
    ensures Inv(DropUnused(u, s.handles[i].original, s.handles[i].actual))
  {
    var h := s.handles[i];
    var t := TakeOut(s, i);
    assert h.actual.callback == h.original;
    TakeOutBalanced(s, i);
    TakeOutHandles(s, i);
    HandleIsListed(s, i);
    assert Listed(s, h.actual);
    forall y ensures (Listed(t, y) ==> Listed(s, y)) && (y != h.actual ==> (Listed(t, y) <==> Listed(s, y))) {
      TakeOutListed(s, i, y);
    }
    hide Listed, HandlesValid, MapExact, TakeOut, Count, Live;
    BalancedFrame(t, u);
    WrappersAsMap(s);
    hide WrappersExact, Balanced;
    var v := DropUnused(u, h.original, h.actual);
    DropUnusedIs(u, h.original, h.actual);
    hide DropUnused;
    SameMapOutside(s, i, u);
    DropKeepsMap(s.offloadMap, ListedSet(s), ListedSet(u), h.original, h.actual);
    SameLists(u, v);
    assert ListedSet(v) == ListedSet(u);
    WrappersAsMap(v);
  }

  lemma BalancedFrame(t: State, u: State)
    requires u == t.(cancelled := u.cancelled)
    ensures Balanced(t) <==> Balanced(u)
    ensures forall y :: Listed(t, y) <==> Listed(u, y)
  {
    hide Count, Live;
    assert forall f :: Listeners(t, f) == Listeners(u, f);
  }

  lemma SameMapOutside(s: State, i: nat, u: State)
    requires i < |s.handles|
    requires u == TakeOut(s, i) || u == TakeOut(s, i).(cancelled := s.cancelled + [s.handles[i].id])
    ensures u.offloadMap == s.offloadMap
  {
  }

  /** `cancel` succeeds exactly for a live handle. */
  lemma CancelKeeps(s: State, id: nat)
    requires Inv(s)
    ensures Inv(Cancel(s, id).0)
    ensures Cancel(s, id).1 <==> exists h :: h in s.handles && h.id == id
    ensures Cancel(s, id).1 ==> id !in s.cancelled && Cancel(s, id).0.cancelled == s.cancelled + [id]
    ensures !Cancel(s, id).1 ==> Cancel(s, id).0 == s
  {
    var i := FindId(s.handles, id);
    if i < |s.handles| {
      assert s.handles[i] in s.handles;
      HandleIsListed(s, i);
      var u := TakeOut(s, i).(cancelled := s.cancelled + [s.handles[i].id]);
      TakeOutKeeps(s, i, u);
      hide Inv, Balanced, WrappersExact;
    }
  }

  lemma RegistrationExists(s: State, e: Event, cb: Callback)
    requires Inv(s) && ActualOf(s, cb) in Listeners(s, e)
    ensures FindRegistration(s.handles, e, cb, ActualOf(s, cb)) < |s.handles|
  {
    var x := ActualOf(s, cb);
    CountMember(Listeners(s, e), x);
    assert Live(s.handles, e, x) > 0;
    var j := LiveWitness(s.handles, e, x);
    assert s.handles[j].original == x.callback == cb;
  }

  /** `unsubscribe` succeeds exactly when its listener is on the event's list. */
  lemma UnsubscribeKeeps(s: State, e: Event, cb: Callback)
    requires Inv(s)
    ensures Inv(Unsubscribe(s, e, cb).0)
    ensures Unsubscribe(s, e, cb).1 <==> ActualOf(s, cb) in Listeners(s, e)
  {
    var x := ActualOf(s, cb);
    if x in Listeners(s, e) {
      var i := FindRegistration(s.handles, e, cb, x);
      RegistrationExists(s, e, cb);
      TakeOutKeeps(s, i, TakeOut(s, i));
      hide Inv, Balanced, WrappersExact;
    }
  }

  lemma {:induction false} LiveWitness(hs: seq<Handle>, e: Event, x: Listener) returns (i: nat)
    requires Live(hs, e, x) > 0
    ensures i < |hs| && hs[i].event == e && hs[i].actual == x
  {
    if hs[0].event == e && hs[0].actual == x {
      i := 0;
    } else {
      i := LiveWitness(hs[1..], e, x);
      i := i + 1;
    }
  }

  lemma {:induction false} LiveNotOriginal(hs: seq<Handle>, cb: Callback, e: Event, x: Listener)
    requires forall i :: 0 <= i < |hs| ==> hs[i].actual.callback == hs[i].original
    ensures Live(NotOriginal(hs, cb), e, x) == if x.callback == cb then 0 else Live(hs, e, x)
  {
    if hs != [] {
      LiveNotOriginal(hs[1..], cb, e, x);
      if hs[0].original != cb {
        assert ([hs[0]] + NotOriginal(hs[1..], cb))[1..] == NotOriginal(hs[1..], cb);
      }
    }
  }

  lemma {:induction false} NotOriginalMembers(hs: seq<Handle>, cb: Callback, h: Handle)
    requires h in NotOriginal(hs, cb)
    ensures h in hs
  {
    assert hs == [hs[0]] + hs[1..];
    if h in NotOriginal(hs[1..], cb) {
      NotOriginalMembers(hs[1..], cb, h);
    }
  }

  lemma {:induction false} NotOriginalDistinct(hs: seq<Handle>, cb: Callback)
    requires forall i, j :: 0 <= i < j < |hs| ==> hs[i].id != hs[j].id
    ensures var r := NotOriginal(hs, cb); forall i, j :: 0 <= i < j < |r| ==> r[i].id != r[j].id
  {
    if hs != [] {
      var tail := hs[1..];
      NotOriginalDistinct(tail, cb);
      var r := NotOriginal(tail, cb);
      forall i | 0 <= i < |r| ensures r[i].id != hs[0].id {
        NotOriginalMembers(tail, cb, r[i]);
        var k :| 0 <= k < |tail| && tail[k] == r[i];
        assert hs[k + 1] == r[i];
      }
    }
  }

  lemma AllHandles(s: State, cb: Callback)
    requires HandlesValid(s)
    ensures HandlesValid(UnsubscribeAll(s, cb))
  {
    var r := NotOriginal(s.handles, cb);
    NotOriginalDistinct(s.handles, cb);
    forall i | 0 <= i < |r| ensures r[i] in s.handles {
      NotOriginalMembers(s.handles, cb, r[i]);
    }
    hide NotOriginal;
    assert forall h :: h in s.handles ==> h.id < s.nextId && h.actual.callback == h.original;
    assert forall h, k :: h in s.handles && 0 <= k < |s.cancelled| ==> s.cancelled[k] != h.id;
  }

  lemma AllListeners(s: State, cb: Callback, e: Event)
    ensures Listeners(UnsubscribeAll(s, cb), e) == RemoveAll(Listeners(s, e), ActualOf(s, cb))
  {
  }

  /** The callback has both a wrapper and a direct registration. */
  ghost predicate RegisteredBothWays(s: State, cb: Callback) {
    cb in s.offloadMap && Listed(s, Direct(cb))
  }

  lemma AllBalanced(s: State, cb: Callback)
    requires Inv(s)
    ensures Balanced(UnsubscribeAll(s, cb)) <==> !RegisteredBothWays(s, cb)
  {
    var t, actual := UnsubscribeAll(s, cb), ActualOf(s, cb);
    if RegisteredBothWays(s, cb) {
      var e :| Direct(cb) in Listeners(s, e);
      AllListeners(s, cb, e);
      CountRemoveAll(Listeners(s, e), actual, Direct(cb));
      CountMember(Listeners(s, e), Direct(cb));
      LiveNotOriginal(s.handles, cb, e, Direct(cb));
      assert Count(Listeners(t, e), Direct(cb)) != Live(t.handles, e, Direct(cb));
    } else {
      forall e, x ensures Count(Listeners(t, e), x) == Live(t.handles, e, x) {
        AllListeners(s, cb, e);
        CountRemoveAll(Listeners(s, e), actual, x);
        LiveNotOriginal(s.handles, cb, e, x);
        assert Count(Listeners(s, e), x) == Live(s.handles, e, x);
        CountMember(Listeners(s, e), x);
        if x.callback == cb && x != actual && x in Listeners(s, e) {
          assert Listed(s, x);
        }
      }
    }
  }

  lemma AllWrappers(s: State, cb: Callback)
    requires Inv(s)
    ensures WrappersExact(UnsubscribeAll(s, cb)) && HandlesValid(UnsubscribeAll(s, cb))
  {
    var t, actual := UnsubscribeAll(s, cb), ActualOf(s, cb);
    AllHandles(s, cb);
    hide Count, Live, NotOriginal, Balanced, HandlesValid;
    forall x ensures Listed(t, x) <==> Listed(s, x) && x != actual {
      forall e ensures x in Listeners(t, e) <==> x in Listeners(s, e) && x != actual {
        AllListeners(s, cb, e);
        CountRemoveAll(Listeners(s, e), actual, x);
        CountMember(Listeners(s, e), x);
        CountMember(RemoveAll(Listeners(s, e), actual), x);
      }
    }
    hide Listed, RemoveAll;
  }

  /**
   * `unsubscribe_all` keeps the bookkeeping exactly when the callback is not
   * registered both directly and offloaded: then the direct listeners stay in
   * the lists while their handles are forgotten.
   */
  lemma UnsubscribeAllExact(s: State, cb: Callback)
    requires Inv(s)
    ensures Inv(UnsubscribeAll(s, cb)) <==> !RegisteredBothWays(s, cb)
  {
    AllBalanced(s, cb);
    AllWrappers(s, cb);
  }

  lemma ShutdownKeeps(s: State)
    requires Inv(s)
    ensures Inv(Shutdown(s))
  {
    if !s.isShutdown {
      assert forall e :: Listeners(Shutdown(s), e) == [];
    }
  }

  // ---------------------------------------------------------------- what each operation changes

  /** From `s` to `t` one registration is added, at the end of its event's list. */
  ghost predicate Added(s: State, t: State, e: Event, cb: Callback, x: Listener) {
    && t.handles == s.handles + [Handle(s.nextId, e, cb, x)]
    && Listeners(t, e) == Listeners(s, e) + [x]
    && (forall f :: f != e ==> Listeners(t, f) == Listeners(s, f))
    && t.nextId == s.nextId + 1 && !t.isShutdown && t.cancelled == s.cancelled
  }

  lemma SubscribeOutcome(s: State, e: Event, cb: Callback)
    ensures var t := Subscribe(s, e, cb);
      if s.isShutdown then t == s
      else Added(s, t, e, cb, Direct(cb)) && t.offloadMap == s.offloadMap && t.nextSerial == s.nextSerial
  {
  }

  /** Offloaded registrations of a callback share one wrapper, made for the first of them and listed nowhere before. */
  lemma SubscribeOffloadedOutcome(s: State, e: Event, cb: Callback)
    requires Inv(s)
    ensures var t := SubscribeOffloaded(s, e, cb);
      if s.isShutdown then t == s
      else
        && cb in t.offloadMap && t.offloadMap[cb].Wrapper? && t.offloadMap[cb].callback == cb
        && Added(s, t, e, cb, t.offloadMap[cb])
        && (if cb in s.offloadMap then t.offloadMap == s.offloadMap
            else t.offloadMap == s.offloadMap[cb := t.offloadMap[cb]] && !Listed(s, t.offloadMap[cb]))
  {
    hide Balanced, HandlesValid, Listed;
  }

  /** `after` is `before` without the first `x`. */
  ghost predicate FirstOut(before: seq<Listener>, after: seq<Listener>, x: Listener) {
    exists k :: 0 <= k < |before| && before[k] == x && x !in before[..k] && after == before[..k] + before[k + 1..]
  }

  lemma {:induction false} RemoveFirstOut(s: seq<Listener>, x: Listener)
    requires x in s
    ensures FirstOut(s, RemoveFirst(s, x), x)
  {
    hide FirstOut;
    assert s == [s[0]] + s[1..];
    if s[0] == x {
      HeadOut(s);
    } else {
      RemoveFirstOut(s[1..], x);
      TailOut(s[0], s[1..], RemoveFirst(s[1..], x), x);
    }
  }

  lemma HeadOut(s: seq<Listener>)
    requires s != []
    ensures FirstOut(s, s[1..], s[0])
  {
    assert s[..0] + s[0 + 1..] == s[1..];
  }

  lemma TailOut(y: Listener, before: seq<Listener>, after: seq<Listener>, x: Listener)
    requires FirstOut(before, after, x) && y != x
    ensures FirstOut([y] + before, [y] + after, x)
  {
    var k :| 0 <= k < |before| && before[k] == x && x !in before[..k] && after == before[..k] + before[k + 1..];
    var s := [y] + before;
    assert s[k + 1] == x && s[..k + 1] == [y] + before[..k] && s[k + 1 + 1..] == before[k + 1..];
    assert [y] + after == s[..k + 1] + s[k + 1 + 1..];
  }

  /**
   * From `s` to `t` the registration of handle `i` is released: the handle and
   * the first entry of its listener go, and its wrapper goes with its last entry.
   */
  ghost predicate Released(s: State, t: State, i: nat)
    requires i < |s.handles|
  {
    var h := s.handles[i];
    && t.handles == s.handles[..i] + s.handles[i + 1..]
    && FirstOut(Listeners(s, h.event), Listeners(t, h.event), h.actual)
    && (forall f :: f != h.event ==> Listeners(t, f) == Listeners(s, f))
    && t.offloadMap == (if h.actual.Wrapper? && !Listed(t, h.actual) then s.offloadMap - {h.original} else s.offloadMap)
    && t.nextId == s.nextId && t.nextSerial == s.nextSerial && t.isShutdown == s.isShutdown
  }

  lemma TakeOutReleases(s: State, i: nat, u: State)
    requires i < |s.handles| && s.handles[i].actual in Listeners(s, s.handles[i].event)
    requires u == TakeOut(s, i) || u == TakeOut(s, i).(cancelled := s.cancelled + [s.handles[i].id])
    ensures Released(s, DropUnused(u, s.handles[i].original, s.handles[i].actual), i)
    ensures DropUnused(u, s.handles[i].original, s.handles[i].actual).cancelled == u.cancelled
  {
    hide FirstOut;
    var h := s.handles[i];
    var v := DropUnused(u, h.original, h.actual);
    RemoveFirstOut(Listeners(s, h.event), h.actual);
    DropUnusedIs(u, h.original, h.actual);
    assert forall f :: Listeners(v, f) == Listeners(u, f);
    assert Listed(v, h.actual) <==> Listed(u, h.actual);
  }

  /** `cancel` releases the registration its handle stands for, and logs the handle. */
  lemma CancelOutcome(s: State, id: nat)
    requires Inv(s)
    ensures forall i :: 0 <= i < |s.handles| && s.handles[i].id == id ==>
      Cancel(s, id).1 && Released(s, Cancel(s, id).0, i) && Cancel(s, id).0.cancelled == s.cancelled + [id]
    ensures (forall i :: 0 <= i < |s.handles| ==> s.handles[i].id != id) ==> Cancel(s, id) == (s, false)
  {
    hide Balanced, WrappersExact, DropUnused, Released, Listed;
    var i := FindId(s.handles, id);
    if i < |s.handles| {
      HandleIsListed(s, i);
      TakeOutReleases(s, i, TakeOut(s, i).(cancelled := s.cancelled + [id]));
      assert forall j :: 0 <= j < |s.handles| && s.handles[j].id == id ==> j == i;
    }
  }

  /** Handle `i` is the first to register `x` on the event. */
  ghost predicate FirstFor(hs: seq<Handle>, i: nat, e: Event, x: Listener) {
    && i < |hs| && hs[i].event == e && hs[i].actual == x
    && forall j :: 0 <= j < i ==> hs[j].event != e || hs[j].actual != x
  }

  /** `unsubscribe` releases the event's first registration of the callback's wrapper, or of the callback. */
  lemma UnsubscribeOutcome(s: State, e: Event, cb: Callback)
    requires Inv(s)
    ensures var x := if cb in s.offloadMap then s.offloadMap[cb] else Direct(cb);
      var (t, ok) := Unsubscribe(s, e, cb);
      if x in Listeners(s, e) then
        ok && t.cancelled == s.cancelled && exists i :: FirstFor(s.handles, i, e, x) && Released(s, t, i)
      else !ok && t == s
  {
    hide Balanced, DropUnused, Released, Listed;
    var x := ActualOf(s, cb);
    assert x.callback == cb;
    if x in Listeners(s, e) {
      var i := FindRegistration(s.handles, e, cb, x);
      RegistrationExists(s, e, cb);
      TakeOutReleases(s, i, TakeOut(s, i));
      assert FirstFor(s.handles, i, e, x);
    }
  }

  /** A release takes one listener and one live handle off its event, and no other count changes. */
  lemma ReleasedCounts(s: State, t: State, i: nat, e: Event, x: Listener)
    requires i < |s.handles| && Released(s, t, i)
    ensures var one := if s.handles[i].event == e && s.handles[i].actual == x then 1 else 0;
      && Count(Listeners(t, e), x) == Count(Listeners(s, e), x) - one
      && Live(t.handles, e, x) == Live(s.handles, e, x) - one
  {
    var h := s.handles[i];
    var before, after := Listeners(s, h.event), Listeners(t, h.event);
    var k :| 0 <= k < |before| && before[k] == h.actual && after == before[..k] + before[k + 1..];
    CountWithout(before, k, x);
    LiveWithout(s.handles, i, e, x);
  }

  lemma {:induction false} CountWithout(s: seq<Listener>, k: nat, x: Listener)
    requires k < |s|
    ensures Count(s[..k] + s[k + 1..], x) == Count(s, x) - if s[k] == x then 1 else 0
  {
    if k == 0 {
      assert s[..0] + s[1..] == s[1..];
    } else {
      var rest := s[1..];
      CountWithout(rest, k - 1, x);
      assert s[..k] + s[k + 1..] == [s[0]] + (rest[..k - 1] + rest[k..]);
    }
  }

  /** `unsubscribe_all` takes away every entry of one listener and every handle of the callback, and nothing else. */
  lemma UnsubscribeAllOutcome(s: State, cb: Callback)
    requires Inv(s)
    ensures var x := if cb in s.offloadMap then s.offloadMap[cb] else Direct(cb);
      var t := UnsubscribeAll(s, cb);
      && (forall e, y :: Count(Listeners(t, e), y) == if y == x then 0 else Count(Listeners(s, e), y))
      && (forall h :: h in t.handles <==> h in s.handles && h.original != cb)
      && (forall h, k :: Precedes(t.handles, h, k) ==> Precedes(s.handles, h, k))
      && t == s.(subscribers := t.subscribers, handles := t.handles, offloadMap := s.offloadMap - {cb})
  {
    var x, t := ActualOf(s, cb), UnsubscribeAll(s, cb);
    forall e, y ensures Count(Listeners(t, e), y) == if y == x then 0 else Count(Listeners(s, e), y) {
      AllListeners(s, cb, e);
      CountRemoveAll(Listeners(s, e), x, y);
    }
    hide Balanced, WrappersExact, RemoveAll;
    NotOriginalExact(s.handles, cb);
  }

  ghost predicate Precedes(hs: seq<Handle>, h: Handle, k: Handle) {
    exists i, j :: 0 <= i < j < |hs| && hs[i] == h && hs[j] == k
  }

  lemma {:induction false} NotOriginalExact(hs: seq<Handle>, cb: Callback)
    requires forall i :: 0 <= i < |hs| ==> hs[i].actual.callback == hs[i].original
    ensures forall h :: h in NotOriginal(hs, cb) <==> h in hs && h.original != cb
    ensures forall h, k :: Precedes(NotOriginal(hs, cb), h, k) ==> Precedes(hs, h, k)
  {
    if hs != [] {
      var tail := hs[1..];
      assert hs == [hs[0]] + tail;
      NotOriginalExact(tail, cb);
      var rest, kept := NotOriginal(hs, cb), NotOriginal(tail, cb);
      forall h, k | Precedes(rest, h, k) ensures Precedes(hs, h, k) {
        if hs[0].original != cb {
          assert rest == [hs[0]] + kept;
          PrecedesCons(hs[0], kept, h, k);
        }
        PrecedesCons(hs[0], tail, h, k);
      }
    }
  }

  lemma PrecedesCons(x: Handle, hs: seq<Handle>, h: Handle, k: Handle)
    ensures Precedes([x] + hs, h, k) <==> Precedes(hs, h, k) || (h == x && k in hs)
  {
    var all := [x] + hs;
    if i, j :| 0 <= i < j < |hs| && hs[i] == h && hs[j] == k {
      assert all[i + 1] == h && all[j + 1] == k;
    }
    if h == x && k in hs {
      var j :| 0 <= j < |hs| && hs[j] == k;
      assert all[0] == h && all[j + 1] == k;
    }
    if i, j :| 0 <= i < j < |all| && all[i] == h && all[j] == k {
      assert k == hs[j - 1];
      if i > 0 {
        assert hs[i - 1] == h;
      }
    }
  }

  /** Cancelling a fresh registration puts every list, handle and wrapper back. */
  lemma CancelUndoesSubscribe(s: State, e: Event, cb: Callback, offloaded: bool)
    requires Inv(s) && !s.isShutdown
    ensures var t := if offloaded then SubscribeOffloaded(s, e, cb) else Subscribe(s, e, cb);
      var (u, ok) := Cancel(t, s.nextId);
      && ok && u.handles == s.handles && u.offloadMap == s.offloadMap
      && forall f, y :: Count(Listeners(u, f), y) == Count(Listeners(s, f), y)
  {
    hide Released, Added;
    var t := if offloaded then SubscribeOffloaded(s, e, cb) else Subscribe(s, e, cb);
    if offloaded {
      SubscribeOffloadedKeeps(s, e, cb);
      SubscribeOffloadedOutcome(s, e, cb);
    } else {
      SubscribeKeeps(s, e, cb);
      SubscribeOutcome(s, e, cb);
    }
    var x := if offloaded then t.offloadMap[cb] else Direct(cb);
    hide Subscribe, SubscribeOffloaded, Cancel;
    AddedThenReleased(s, t, e, cb, x);
  }

  lemma AddedThenReleased(s: State, t: State, e: Event, cb: Callback, x: Listener)
    requires Inv(s) && Inv(t) && Added(s, t, e, cb, x) && x.callback == cb
    requires x.Direct? ==> t.offloadMap == s.offloadMap
    requires x.Wrapper? ==> t.offloadMap == s.offloadMap[cb := x] && (cb in s.offloadMap <==> Listed(s, x))
    requires x.Wrapper? && cb in s.offloadMap ==> s.offloadMap[cb] == x
    ensures var (u, ok) := Cancel(t, s.nextId);
      && ok && u.handles == s.handles && u.offloadMap == s.offloadMap
      && forall f, y :: Count(Listeners(u, f), y) == Count(Listeners(s, f), y)
  {
    hide Inv, Cancel, Listed, Released, Count, Live, Listeners;
    var i := |s.handles|;
    assert t.handles[i] == Handle(s.nextId, e, cb, x);
    CancelOutcome(t, s.nextId);
    var u := Cancel(t, s.nextId).0;
    CountsBack(s, t, u, e, cb, x);
    ReleasedMap(t, u, i);
    assert t.handles[..i] + t.handles[i + 1..] == s.handles;
  }

  lemma ReleasedMap(s: State, t: State, i: nat)
    requires i < |s.handles| && Released(s, t, i)
    ensures t.handles == s.handles[..i] + s.handles[i + 1..]
    ensures var h := s.handles[i];
      t.offloadMap == (if h.actual.Wrapper? && !Listed(t, h.actual) then s.offloadMap - {h.original} else s.offloadMap)
  {
    hide FirstOut, Listed, Listeners;
  }

  lemma CountsBack(s: State, t: State, u: State, e: Event, cb: Callback, x: Listener)
    requires Added(s, t, e, cb, x) && Released(t, u, |s.handles|)
    ensures forall f, y :: Count(Listeners(u, f), y) == Count(Listeners(s, f), y)
    ensures Listed(u, x) <==> Listed(s, x)
  {
    hide Released, Count, Live, Listeners;
    forall f, y ensures Count(Listeners(u, f), y) == Count(Listeners(s, f), y) {
      ReleasedCounts(t, u, |s.handles|, f, y);
      CountAppend(Listeners(s, e), x, y);
    }
    forall f ensures x in Listeners(u, f) <==> x in Listeners(s, f) {
      CountMember(Listeners(u, f), x);
      CountMember(Listeners(s, f), x);
    }
  }

  // ---------------------------------------------------------------- every sequence of operations

  datatype Op =
    | OpSubscribe(event: Event, callback: Callback)
    | OpSubscribeOffloaded(event: Event, callback: Callback)
    | OpCancel(id: nat)
    | OpUnsubscribe(event: Event, callback: Callback)
    | OpUnsubscribeAll(callback: Callback)
    | OpShutdown

  function Apply(s: State, op: Op): State {
    match op
    case OpSubscribe(e, cb) => Subscribe(s, e, cb)
    case OpSubscribeOffloaded(e, cb) => SubscribeOffloaded(s, e, cb)
    case OpCancel(id) => Cancel(s, id).0
    case OpUnsubscribe(e, cb) => Unsubscribe(s, e, cb).0
    case OpUnsubscribeAll(cb) => UnsubscribeAll(s, cb)
    case OpShutdown => Shutdown(s)
  }

  function Run(s: State, ops: seq<Op>): State
    decreases |ops|
  {
    if ops == [] then s else Run(Apply(s, ops[0]), ops[1..])
  }

  /** No `unsubscribe_all` in the run meets a callback registered both ways. */
  ghost predicate Unmixed(s: State, ops: seq<Op>)
    decreases |ops|
  {
    ops == [] ||
    ((ops[0].OpUnsubscribeAll? ==> !RegisteredBothWays(s, ops[0].callback)) && Unmixed(Apply(s, ops[0]), ops[1..]))
  }

  lemma StepKeeps(s: State, op: Op)
    requires Inv(s) && (op.OpUnsubscribeAll? ==> !RegisteredBothWays(s, op.callback))
    ensures Inv(Apply(s, op))
  {
    hide Inv, Cancel, Unsubscribe, UnsubscribeAll, Subscribe, SubscribeOffloaded, Shutdown, RegisteredBothWays;
    match op
    case OpSubscribe(e, cb) => SubscribeKeeps(s, e, cb);
    case OpSubscribeOffloaded(e, cb) => SubscribeOffloadedKeeps(s, e, cb);
    case OpCancel(id) => CancelKeeps(s, id);
    case OpUnsubscribe(e, cb) => UnsubscribeKeeps(s, e, cb);
    case OpUnsubscribeAll(cb) => UnsubscribeAllExact(s, cb);
    case OpShutdown => ShutdownKeeps(s);
  }

  const NEW := State(map[], [], map[], 0, 0, false, [])

  /**
   * After any sequence of operations the listeners of each event are the live
   * handles' listeners, wrappers exist exactly for callbacks with an offloaded
   * listener, and no handle has been cancelled twice.
   */
  lemma {:induction false} RunKeeps(s: State, ops: seq<Op>)
    requires Inv(s) && Unmixed(s, ops)
    ensures Inv(Run(s, ops))
    decreases |ops|
  {
    if ops != [] {
      StepKeeps(s, ops[0]);
      hide Inv, Apply, RegisteredBothWays;
      RunKeeps(Apply(s, ops[0]), ops[1..]);
    }
  }

  lemma EveryRun(ops: seq<Op>)
    requires Unmixed(NEW, ops)
    ensures Inv(Run(NEW, ops))
  {
    assert forall e :: Listeners(NEW, e) == [];
    assert Inv(NEW);
    hide Inv, Run, Unmixed;
    RunKeeps(NEW, ops);
  }

  /** A shut-down bus is empty, and no later call changes it. */
  lemma {:induction false} ShutdownIsFinal(s: State, ops: seq<Op>)
    requires !s.isShutdown
    ensures var t := Shutdown(s);
      && t.isShutdown && t.handles == [] && t.offloadMap == map[] && (forall e :: Listeners(t, e) == [])
      && t.cancelled == s.cancelled && Run(t, ops) == t
    decreases |ops|
  {
    if ops != [] {
      ShutdownIsFinal(s, ops[1..]);
      var t := Shutdown(s);
      assert UnsubscribeAll(t, 0).subscribers == map[];
      assert Apply(t, ops[0]) == t;
    }
  }

  // ---------------------------------------------------------------- delivery order

  /** The listeners of the live handles on an event, in registration order. */
  function Registered(hs: seq<Handle>, e: Event): seq<Listener> {
    if hs == [] then []
    else if hs[0].event == e then [hs[0].actual] + Registered(hs[1..], e)
    else Registered(hs[1..], e)
  }

  /** Every event is delivered in the order of the live handles. */
  ghost predicate Aligned(s: State) {
    forall e :: Listeners(s, e) == Registered(s.handles, e)
  }

  /**
   * No handle for another listener of the same event stands between an earlier
   * registration of the same listener and this one.
   */
  ghost predicate InTurn(hs: seq<Handle>, i: nat)
    requires i < |hs|
  {
    forall k, j :: 0 <= k < j < i && hs[k].event == hs[j].event == hs[i].event && hs[k].actual == hs[i].actual ==>
      hs[j].actual == hs[i].actual
  }

  lemma {:induction false} RegisteredAppend(hs: seq<Handle>, h: Handle, e: Event)
    ensures Registered(hs + [h], e) == Registered(hs, e) + if h.event == e then [h.actual] else []
  {
    if hs == [] {
      assert [] + [h] == [h] && [h][1..] == [];
    } else {
      assert (hs + [h])[0] == hs[0] && (hs + [h])[1..] == hs[1..] + [h];
      RegisteredAppend(hs[1..], h, e);
    }
  }

  lemma {:induction false} RegisteredElsewhere(hs: seq<Handle>, i: nat, e: Event)
    requires i < |hs| && hs[i].event != e
    ensures Registered(Without(hs, i), e) == Registered(hs, e)
  {
    if i == 0 {
      assert Without(hs, 0) == hs[1..];
    } else {
      assert Without(hs, i)[0] == hs[0] && Without(hs, i)[1..] == Without(hs[1..], i - 1);
      RegisteredElsewhere(hs[1..], i - 1, e);
    }
  }

  /** Moving handle `i`'s listener to the front changes nothing exactly when it stands behind equals only. */
  lemma {:induction false} ToFront(hs: seq<Handle>, i: nat)
    requires i < |hs|
    ensures Registered(hs, hs[i].event) == [hs[i].actual] + Registered(Without(hs, i), hs[i].event) <==>
            forall j :: 0 <= j < i && hs[j].event == hs[i].event ==> hs[j].actual == hs[i].actual
  {
    var e, x := hs[i].event, hs[i].actual;
    if i == 0 {
      assert Without(hs, 0) == hs[1..];
    } else {
      var tail := hs[1..];
      assert Without(hs, i)[0] == hs[0] && Without(hs, i)[1..] == Without(tail, i - 1);
      ToFront(tail, i - 1);
      TailAll(hs, i, e, x);
      assert tail[i - 1] == hs[i];
      if hs[0].event == e {
        var rest := Registered(Without(tail, i - 1), e);
        assert Registered(hs, e) == [hs[0].actual] + Registered(tail, e);
        assert [x] + Registered(Without(hs, i), e) == [x] + ([hs[0].actual] + rest);
        SameHeads(hs[0].actual, Registered(tail, e), x, rest);
      }
    }
  }

  lemma SameHeads(y: Listener, s: seq<Listener>, x: Listener, t: seq<Listener>)
    ensures [y] + s == [x] + ([y] + t) <==> x == y && s == [x] + t
  {
    var a, b := [y] + s, [x] + ([y] + t);
    assert a[0] == y && a[1..] == s && b[0] == x && b[1..] == [y] + t;
    assert a == [a[0]] + a[1..] && b == [b[0]] + b[1..];
  }

  lemma TailAll(hs: seq<Handle>, i: nat, e: Event, x: Listener)
    requires 0 < i < |hs|
    ensures (forall j :: 0 <= j < i && hs[j].event == e ==> hs[j].actual == x) <==>
            (hs[0].event == e ==> hs[0].actual == x)
            && (forall j :: 0 <= j < i - 1 && hs[1..][j].event == e ==> hs[1..][j].actual == x)
  {
    var tail := hs[1..];
    if (hs[0].event == e ==> hs[0].actual == x)
      && (forall j :: 0 <= j < i - 1 && tail[j].event == e ==> tail[j].actual == x) {
      forall j | 0 <= j < i && hs[j].event == e ensures hs[j].actual == x {
        if j > 0 {
          assert tail[j - 1] == hs[j];
        }
      }
    }
    if forall j :: 0 <= j < i && hs[j].event == e ==> hs[j].actual == x {
      forall j | 0 <= j < i - 1 && tail[j].event == e ensures tail[j].actual == x {
        assert tail[j] == hs[j + 1];
      }
    }
  }

  /** Removing the first equal listener is removing the handle's own exactly when the handle is in turn. */
  lemma {:induction false} RemoveFirstInTurn(hs: seq<Handle>, i: nat)
    requires i < |hs|
    ensures RemoveFirst(Registered(hs, hs[i].event), hs[i].actual) == Registered(Without(hs, i), hs[i].event) <==>
            InTurn(hs, i)
  {
    var e, x := hs[i].event, hs[i].actual;
    if i == 0 {
      assert Without(hs, 0) == hs[1..];
    } else {
      var tail := hs[1..];
      assert Without(hs, i)[0] == hs[0] && Without(hs, i)[1..] == Without(tail, i - 1);
      if hs[0].event == e && hs[0].actual == x {
        ToFront(tail, i - 1);
        InTurnHead(hs, i);
      } else {
        RemoveFirstInTurn(tail, i - 1);
        InTurnTail(hs, i);
        if hs[0].event == e {
          var a, b := RemoveFirst(Registered(tail, e), x), Registered(Without(tail, i - 1), e);
          assert ([hs[0].actual] + a)[1..] == a && ([hs[0].actual] + b)[1..] == b;
        }
      }
    }
  }

  lemma InTurnHead(hs: seq<Handle>, i: nat)
    requires 0 < i < |hs| && hs[0].event == hs[i].event && hs[0].actual == hs[i].actual
    ensures InTurn(hs, i) <==>
            forall j :: 0 <= j < i - 1 && hs[1..][j].event == hs[i].event ==> hs[1..][j].actual == hs[i].actual
  {
    TailAll(hs, i, hs[i].event, hs[i].actual);
    if InTurn(hs, i) {
      forall j | 0 <= j < i && hs[j].event == hs[i].event ensures hs[j].actual == hs[i].actual {
      }
    }
  }

  lemma InTurnTail(hs: seq<Handle>, i: nat)
    requires 0 < i < |hs| && !(hs[0].event == hs[i].event && hs[0].actual == hs[i].actual)
    ensures InTurn(hs, i) <==> InTurn(hs[1..], i - 1)
  {
    var tail := hs[1..];
    if InTurn(tail, i - 1) {
      forall k, j | 0 <= k < j < i && hs[k].event == hs[j].event == hs[i].event && hs[k].actual == hs[i].actual
        ensures hs[j].actual == hs[i].actual
      {
        assert tail[k - 1] == hs[k] && tail[j - 1] == hs[j];
      }
    }
    if InTurn(hs, i) {
      var h := tail[i - 1];
      forall k, j | 0 <= k < j < i - 1 && tail[k].event == tail[j].event == h.event && tail[k].actual == h.actual
        ensures tail[j].actual == h.actual
      {
        assert tail[k] == hs[k + 1] && tail[j] == hs[j + 1];
      }
    }
  }

  lemma RegisterAligned(s: State, e: Event, cb: Callback, x: Listener)
    requires Aligned(s)
    ensures Aligned(Register(s, e, cb, x))
  {
    var t := Register(s, e, cb, x);
    hide Registered;
    forall f ensures Listeners(t, f) == Registered(t.handles, f) {
      RegisteredAppend(s.handles, Handle(s.nextId, e, cb, x), f);
      assert Listeners(s, f) == Registered(s.handles, f);
    }
  }

  lemma TakeOutAligned(s: State, i: nat)
    requires Aligned(s) && i < |s.handles|
    ensures Aligned(TakeOut(s, i)) <==> InTurn(s.handles, i)
  {
    var h, t := s.handles[i], TakeOut(s, i);
    hide Registered, RemoveFirst, InTurn, Without;
    RemoveFirstInTurn(s.handles, i);
    assert Listeners(s, h.event) == Registered(s.handles, h.event);
    assert Listeners(t, h.event) == RemoveFirst(Registered(s.handles, h.event), h.actual);
    forall f | f != h.event ensures Listeners(t, f) == Registered(t.handles, f) {
      RegisteredElsewhere(s.handles, i, f);
      assert Listeners(s, f) == Registered(s.handles, f);
    }
  }

  lemma AlignedFrame(s: State, t: State)
    requires s.subscribers == t.subscribers && s.handles == t.handles
    ensures Aligned(s) <==> Aligned(t)
  {
    hide Registered;
    assert forall e :: Listeners(s, e) == Listeners(t, e);
  }

  /**
   * Cancelling a live handle keeps delivery in registration order exactly when
   * the handle is in turn: the first equal entry of the list is removed, which
   * has the place of the handle's own unless another listener stands between.
   */
  lemma CancelKeepsOrder(s: State, i: nat)
    requires Inv(s) && Aligned(s) && i < |s.handles|
    ensures Aligned(Cancel(s, s.handles[i].id).0) <==> InTurn(s.handles, i)
  {
    var id := s.handles[i].id;
    assert FindId(s.handles, id) == i;
    HandleIsListed(s, i);
    hide Inv, Balanced, WrappersExact, HandlesValid, Aligned, InTurn, FindId;
    TakeOutAligned(s, i);
    AlignedFrame(TakeOut(s, i), Cancel(s, id).0);
  }

  /** `unsubscribe` forgets the first registration, whose entry is the first equal one. */
  lemma UnsubscribeKeepsOrder(s: State, e: Event, cb: Callback)
    requires Inv(s) && Aligned(s)
    ensures Aligned(Unsubscribe(s, e, cb).0)
  {
    var x := ActualOf(s, cb);
    if x in Listeners(s, e) {
      var i := FindRegistration(s.handles, e, cb, x);
      RegistrationExists(s, e, cb);
      FirstIsInTurn(s, e, cb);
      hide Inv, Balanced, WrappersExact, HandlesValid, Aligned, InTurn, FindRegistration;
      TakeOutAligned(s, i);
      AlignedFrame(TakeOut(s, i), Unsubscribe(s, e, cb).0);
    }
  }

  lemma FirstIsInTurn(s: State, e: Event, cb: Callback)
    requires HandlesValid(s) && FindRegistration(s.handles, e, cb, ActualOf(s, cb)) < |s.handles|
    ensures InTurn(s.handles, FindRegistration(s.handles, e, cb, ActualOf(s, cb)))
  {
  }

  lemma {:induction false} RegisteredRemoveAll(hs: seq<Handle>, cb: Callback, e: Event, x: Listener)
    requires x.callback == cb
    requires forall i :: 0 <= i < |hs| ==> hs[i].actual.callback == hs[i].original
    requires forall i :: 0 <= i < |hs| && hs[i].event == e && hs[i].original == cb ==> hs[i].actual == x
    ensures Registered(NotOriginal(hs, cb), e) == RemoveAll(Registered(hs, e), x)
  {
    if hs != [] {
      assert forall i :: 0 <= i < |hs[1..]| ==> hs[1..][i] == hs[i + 1];
      RegisteredRemoveAll(hs[1..], cb, e, x);
      if hs[0].original != cb {
        assert ([hs[0]] + NotOriginal(hs[1..], cb))[1..] == NotOriginal(hs[1..], cb);
      }
    }
  }

  lemma UnsubscribeAllKeepsOrder(s: State, cb: Callback)
    requires Inv(s) && Aligned(s) && !RegisteredBothWays(s, cb)
    ensures Aligned(UnsubscribeAll(s, cb))
  {
    var t, x := UnsubscribeAll(s, cb), ActualOf(s, cb);
    forall e ensures Listeners(t, e) == Registered(t.handles, e) {
      forall i | 0 <= i < |s.handles| && s.handles[i].event == e && s.handles[i].original == cb
        ensures s.handles[i].actual == x
      {
        HandleIsListed(s, i);
        assert Listed(s, s.handles[i].actual);
      }
      AllListeners(s, cb, e);
      RegisteredRemoveAll(s.handles, cb, e, x);
    }
  }

  /** The operation cancels a live handle that is not in turn. */
  ghost predicate JumpsQueue(s: State, op: Op) {
    op.OpCancel? && exists i :: 0 <= i < |s.handles| && s.handles[i].id == op.id && !InTurn(s.handles, i)
  }

  /** Of all operations, exactly the cancels out of turn disturb the delivery order. */
  lemma StepKeepsOrder(s: State, op: Op)
    requires Inv(s) && Aligned(s) && (op.OpUnsubscribeAll? ==> !RegisteredBothWays(s, op.callback))
    ensures Aligned(Apply(s, op)) <==> !JumpsQueue(s, op)
  {
    match op
    case OpSubscribe(e, cb) => RegisterAligned(s, e, cb, Direct(cb));
    case OpSubscribeOffloaded(e, cb) => OffloadAligned(s, e, cb);
    case OpCancel(id) => CancelStepKeepsOrder(s, id);
    case OpUnsubscribe(e, cb) => UnsubscribeKeepsOrder(s, e, cb);
    case OpUnsubscribeAll(cb) => UnsubscribeAllKeepsOrder(s, cb);
    case OpShutdown =>
      if !s.isShutdown {
        assert forall e :: Listeners(Shutdown(s), e) == [];
      }
  }

  lemma OffloadAligned(s: State, e: Event, cb: Callback)
    requires Aligned(s)
    ensures Aligned(SubscribeOffloaded(s, e, cb))
  {
    hide Aligned, Register;
    if !s.isShutdown && cb !in s.offloadMap {
      var w := Wrapper(cb, s.nextSerial);
      var m := s.(offloadMap := s.offloadMap[cb := w], nextSerial := s.nextSerial + 1);
      AlignedFrame(s, m);
      RegisterAligned(m, e, cb, w);
    } else if !s.isShutdown {
      RegisterAligned(s, e, cb, s.offloadMap[cb]);
    }
  }

  lemma CancelStepKeepsOrder(s: State, id: nat)
    requires Inv(s) && Aligned(s)
    ensures Aligned(Cancel(s, id).0) <==> !JumpsQueue(s, OpCancel(id))
  {
    var i := FindId(s.handles, id);
    if i < |s.handles| {
      CancelKeepsOrder(s, i);
      assert forall j :: 0 <= j < |s.handles| && s.handles[j].id == id ==> j == i;
    }
  }

  /** No cancel of the run is out of turn. */
  ghost predicate Orderly(s: State, ops: seq<Op>)
    decreases |ops|
  {
    ops == [] || (!JumpsQueue(s, ops[0]) && Orderly(Apply(s, ops[0]), ops[1..]))
  }

  /** So over any run of in-turn cancels and other operations events are delivered in registration order. */
  lemma {:induction false} RunKeepsOrder(s: State, ops: seq<Op>)
    requires Inv(s) && Aligned(s) && Unmixed(s, ops) && Orderly(s, ops)
    ensures Aligned(Run(s, ops))
    decreases |ops|
  {
    if ops != [] {
      StepKeeps(s, ops[0]);
      StepKeepsOrder(s, ops[0]);
      hide Inv, Aligned, Apply, RegisteredBothWays, JumpsQueue;
      RunKeepsOrder(Apply(s, ops[0]), ops[1..]);
    }
  }

  lemma EveryOrderlyRun(ops: seq<Op>)
    requires Unmixed(NEW, ops) && Orderly(NEW, ops)
    ensures forall e :: Listeners(Run(NEW, ops), e) == Registered(Run(NEW, ops).handles, e)
  {
    assert forall e :: Listeners(NEW, e) == [] == Registered(NEW.handles, e);
    assert Inv(NEW);
    hide Inv, Run, Unmixed, Orderly;
    RunKeepsOrder(NEW, ops);
  }

  /**
   * Only as multisets do lists and handles agree: cancelling the later of two
   * equal registrations removes the earlier list entry, so delivery order changes.
   */
  lemma CancelMovesDelivery(e: Event, a: Callback, b: Callback)
    requires a != b
    ensures var s := Run(NEW, [OpSubscribe(e, a), OpSubscribe(e, b), OpSubscribe(e, a), OpCancel(2)]);
      && Listeners(s, e) == [Direct(b), Direct(a)]
      && |s.handles| == 2 && s.handles[0].actual == Direct(a) && s.handles[1].actual == Direct(b)
  {
    RunFour(NEW, OpSubscribe(e, a), OpSubscribe(e, b), OpSubscribe(e, a), OpCancel(2));
    var s1 := Apply(NEW, OpSubscribe(e, a));
    var s2 := Apply(s1, OpSubscribe(e, b));
    var s3 := Apply(s2, OpSubscribe(e, a));
    assert Listeners(s3, e) == [Direct(a), Direct(b), Direct(a)];
    assert s3.handles == [Handle(0, e, a, Direct(a)), Handle(1, e, b, Direct(b)), Handle(2, e, a, Direct(a))];
    hide Run;
    CancelThird(s3, e, a, b);
  }

  lemma RunFour(s: State, o1: Op, o2: Op, o3: Op, o4: Op)
    ensures Run(s, [o1, o2, o3, o4]) == Apply(Apply(Apply(Apply(s, o1), o2), o3), o4)
  {
    hide Apply;
    var ops := [o1, o2, o3, o4];
    assert ops[1..] == [o2, o3, o4] && [o2, o3, o4][1..] == [o3, o4] && [o3, o4][1..] == [o4] && [o4][1..] == [];
    var s1 := Apply(s, o1);
    var s2 := Apply(s1, o2);
    var s3 := Apply(s2, o3);
    assert Run(s3, [o4]) == Run(Apply(s3, o4), []) == Apply(s3, o4);
    assert Run(s2, [o3, o4]) == Run(s3, [o4]);
    assert Run(s1, [o2, o3, o4]) == Run(s2, [o3, o4]);
  }

  lemma CancelThird(s: State, e: Event, a: Callback, b: Callback)
    requires a != b && Listeners(s, e) == [Direct(a), Direct(b), Direct(a)]
    requires s.handles == [Handle(0, e, a, Direct(a)), Handle(1, e, b, Direct(b)), Handle(2, e, a, Direct(a))]
    ensures Listeners(Apply(s, OpCancel(2)), e) == [Direct(b), Direct(a)]
    ensures Apply(s, OpCancel(2)).handles == s.handles[..2]
  {
    assert s.handles[2].id == 2 && s.handles[0].id != 2 && s.handles[1].id != 2;
    assert FindId(s.handles, 2) == 2;
    assert Without(s.handles, 2) == s.handles[..2];
    assert RemoveFirst(Listeners(s, e), Direct(a)) == [Direct(b), Direct(a)];
  }

  // ---------------------------------------------------------------- removing a callback everywhere

  /** Live handles for this listener on any of the given events. */
  function LiveWithin(hs: seq<Handle>, events: set<Event>, x: Listener): nat {
    if hs == [] then 0
    else (if hs[0].event in events && hs[0].actual == x then 1 else 0) + LiveWithin(hs[1..], events, x)
  }

  function LiveAnywhere(hs: seq<Handle>, x: Listener): nat {
    if hs == [] then 0 else (if hs[0].actual == x then 1 else 0) + LiveAnywhere(hs[1..], x)
  }

  lemma {:induction false} LiveWithinStep(hs: seq<Handle>, events: set<Event>, e: Event, x: Listener)
    requires e in events
    ensures LiveWithin(hs, events, x) == LiveWithin(hs, events - {e}, x) + Live(hs, e, x)
  {
    if hs != [] {
      LiveWithinStep(hs[1..], events, e, x);
    }
  }

  lemma {:induction false} LiveWithinNone(hs: seq<Handle>, x: Listener)
    ensures LiveWithin(hs, {}, x) == 0
  {
    if hs != [] {
      LiveWithinNone(hs[1..], x);
    }
  }

  lemma {:induction false} LiveWithinAll(hs: seq<Handle>, events: set<Event>, x: Listener)
    requires forall h :: h in hs && h.actual == x ==> h.event in events
    ensures LiveWithin(hs, events, x) == LiveAnywhere(hs, x)
  {
    if hs != [] {
      assert hs == [hs[0]] + hs[1..];
      LiveWithinAll(hs[1..], events, x);
    }
  }

  lemma AllWithin(s: State, x: Listener)
    ensures Balanced(s) ==> LiveWithin(s.handles, s.subscribers.Keys, x) == LiveAnywhere(s.handles, x)
  {
    if Balanced(s) {
      forall h | h in s.handles && h.actual == x ensures h.event in s.subscribers {
        LiveMember(s.handles, h);
        assert Count(Listeners(s, h.event), x) == Live(s.handles, h.event, x);
      }
      LiveWithinAll(s.handles, s.subscribers.Keys, x);
    }
  }

  lemma BalancedAt(s: State, e: Event, x: Listener)
    ensures Balanced(s) ==> Count(Listeners(s, e), x) == Live(s.handles, e, x)
  {
  }

  lemma {:induction false} RemoveFirstThenAll(s: seq<Listener>, x: Listener)
    requires x in s
    ensures RemoveAll(RemoveFirst(s, x), x) == RemoveAll(s, x)
  {
    if s[0] != x {
      assert s == [s[0]] + s[1..];
      RemoveFirstThenAll(s[1..], x);
      assert ([s[0]] + RemoveFirst(s[1..], x))[1..] == RemoveFirst(s[1..], x);
    }
  }

  lemma {:induction false} RemoveAllAbsent(s: seq<Listener>, x: Listener)
    requires x !in s
    ensures RemoveAll(s, x) == s
  {
    if s != [] {
      assert s == [s[0]] + s[1..];
      RemoveAllAbsent(s[1..], x);
    }
  }

  /** `while actual in listeners: listeners.remove(actual)`. */
  method RemoveEvery(s: seq<Listener>, x: Listener) returns (left: seq<Listener>, n: nat)
    ensures left == RemoveAll(s, x) && n == Count(s, x)
  {
    left, n := s, 0;
    while x in left
      invariant RemoveAll(left, x) == RemoveAll(s, x) && n + Count(left, x) == Count(s, x)
      decreases Count(left, x)
    {
      RemoveFirstThenAll(left, x);
      CountRemoveFirst(left, x, x);
      CountMember(left, x);
      left := RemoveFirst(left, x);
      n := n + 1;
    }
    RemoveAllAbsent(left, x);
    CountMember(left, x);
  }

  // ---------------------------------------------------------------- the object

  /** The fields of `EventBus`, changed in place under its lock. */
  class Bus {
    var subscribers: map<Event, seq<Listener>>
    var handles: seq<Handle>
    var offloadMap: map<Callback, Listener>
    var nextId: nat
    var nextSerial: nat
    var isShutdown: bool
    ghost var cancelled: seq<nat>

    ghost function View(): State
      reads this
    {
      State(subscribers, handles, offloadMap, nextId, nextSerial, isShutdown, cancelled)
    }

    constructor ()
      ensures View() == NEW
    {
      subscribers, handles, offloadMap, nextId, nextSerial, isShutdown := map[], [], map[], 0, 0, false;
      cancelled := [];
    }

    /** `publish`: the listeners called, in order; a snapshot is taken under the lock. */
    method PublishTo(e: Event) returns (called: seq<Listener>)
      ensures called == if isShutdown then [] else Listeners(View(), e)
    {
      if isShutdown || e !in subscribers {
        return [];
      }
      return subscribers[e];
    }

    method Add(e: Event, original: Callback, actual: Listener)
      modifies this
      ensures View() == Register(old(View()), e, original, actual)
    {
      subscribers := subscribers[e := (if e in subscribers then subscribers[e] else []) + [actual]];
      handles := handles + [Handle(nextId, e, original, actual)];
      nextId := nextId + 1;
    }

    method SubscribeTo(e: Event, cb: Callback) returns (ok: bool)
      modifies this
      ensures View() == Subscribe(old(View()), e, cb) && ok == !old(isShutdown)
    {
      ok := !isShutdown;
      if ok {
        Add(e, cb, Direct(cb));
      }
    }

    method SubscribeOffloadedTo(e: Event, cb: Callback) returns (ok: bool)
      modifies this
      ensures View() == SubscribeOffloaded(old(View()), e, cb) && ok == !old(isShutdown)
    {
      ok := !isShutdown;
      if !ok {
        return;
      }
      if cb !in offloadMap {
        offloadMap := offloadMap[cb := Wrapper(cb, nextSerial)];
        nextSerial := nextSerial + 1;
      }
      Add(e, cb, offloadMap[cb]);
    }

    method RemoveWrapperIfUnused(original: Callback, actual: Listener)
      modifies this`offloadMap
      ensures View() == DropUnused(old(View()), original, actual)
    {
      if actual.Wrapper? && !exists e :: e in subscribers && actual in subscribers[e] {
        offloadMap := offloadMap - {original};
      }
    }

    method CancelHandle(id: nat) returns (ok: bool)
      modifies this
      ensures (View(), ok) == Cancel(old(View()), id)
    {
      var i := FindId(handles, id);
      if i == |handles| {
        return false;
      }
      var h := handles[i];
      handles := handles[..i] + handles[i + 1..];
      if h.event !in subscribers || h.actual !in subscribers[h.event] {
        return false;
      }
      subscribers := subscribers[h.event := RemoveFirst(subscribers[h.event], h.actual)];
      cancelled := cancelled + [id];
      RemoveWrapperIfUnused(h.original, h.actual);
      return true;
    }

    method UnsubscribeFrom(e: Event, cb: Callback) returns (ok: bool)
      modifies this
      ensures (View(), ok) == Unsubscribe(old(View()), e, cb)
    {
      var actual := if cb in offloadMap then offloadMap[cb] else Direct(cb);
      if e !in subscribers || actual !in subscribers[e] {
        return false;
      }
      subscribers := subscribers[e := RemoveFirst(subscribers[e], actual)];
      var i := FindRegistration(handles, e, cb, actual);
      if i < |handles| {
        handles := handles[..i] + handles[i + 1..];
      }
      RemoveWrapperIfUnused(cb, actual);
      return true;
    }

    /** `unsubscribe_all`: returns how many list entries were removed. */
    method UnsubscribeEverywhere(cb: Callback) returns (removed: nat)
      modifies this
      ensures View() == UnsubscribeAll(old(View()), cb)
      ensures Balanced(old(View())) ==>
        removed == LiveAnywhere(old(handles), old(ActualOf(View(), cb)))
    {
      hide RemoveAll, Live, NotOriginal, Balanced;
      ghost var s := View();
      var actual := if cb in offloadMap then offloadMap[cb] else Direct(cb);
      removed := 0;
      var todo := subscribers.Keys;
      AllWithin(s, actual);
      while todo != {}
        invariant todo <= subscribers.Keys == s.subscribers.Keys
        invariant forall e :: e in todo ==> subscribers[e] == s.subscribers[e]
        invariant forall e :: e in s.subscribers && e !in todo ==> subscribers[e] == RemoveAll(s.subscribers[e], actual)
        invariant View() == s.(subscribers := subscribers)
        invariant Balanced(s) ==> removed + LiveWithin(s.handles, todo, actual) == LiveAnywhere(s.handles, actual)
        decreases todo
      {
        var e :| e in todo;
        LiveWithinStep(s.handles, todo, e, actual);
        BalancedAt(s, e, actual);
        var listeners, n := RemoveEvery(subscribers[e], actual);
        subscribers := subscribers[e := listeners];
        removed := removed + n;
        todo := todo - {e};
      }
      LiveWithinNone(s.handles, actual);
      handles := NotOriginal(handles, cb);
      offloadMap := offloadMap - {cb};
      assert subscribers == UnsubscribeAll(s, cb).subscribers;
    }

    method ShutDown()
      modifies this
      ensures View() == Shutdown(old(View()))
    {
      if !isShutdown {
        isShutdown, subscribers, handles, offloadMap := true, map[], [], map[];
      }
    }
  }
}
