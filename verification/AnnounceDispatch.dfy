/**
 * `AnnounceDispatcher`: one dispatch thread, one thread and one bounded mailbox
 * per subscriber, in every interleaving of their steps.  Announces are numbered
 * in the order the dispatcher accepted them.
 */
module AnnounceDispatch {

  const MAILBOX := 64

  datatype Mail = Announce(id: nat) | Sentinel

  /** What a subscriber's thread is doing. */
  datatype Thread = Waiting | InCallback | Exited

  /**
   * A subscription.  The last five fields log what became of each announce that
   * was dispatched to it and matched its filter.
   */
  datatype Subscription = Subscription(
    registered: bool, active: bool, mailbox: seq<Mail>, thread: Thread,
    disabledUntil: int, timeouts: nat, dropped: nat,
    matched: seq<nat>, delivered: seq<nat>, lost: seq<nat>, skipped: seq<nat>, discarded: seq<nat>)

  /** The dispatch loop is idle, or has the rest of a snapshot of subscriptions to offer an announce to. */
  datatype Dispatch = Resting | Offering(item: nat, targets: seq<nat>)

  datatype State = State(queue: seq<nat>, accepted: nat, queueDropped: nat, dispatch: Dispatch,
                         subs: seq<Subscription>, droppedTotal: nat)

  /** Fixed parameters: bounds, breaker settings, and which announce matches which filter. */
  datatype Config = Config(maxQueue: nat, threshold: nat, cooldown: nat, matches: (nat, nat) -> bool)

  /** How a callback ends: within its deadline, after it, or by raising. */
  datatype Ending = Quick | Slow | Raised

  datatype Action =
    | Enqueue
    | Fetch
    | Offer(now: int)
    | Receive(sub: nat, now: int)
    | Return(sub: nat, ending: Ending, now: int)
    | Notice(sub: nat)
    | Subscribe
    | Unsubscribe(sub: nat)

  /** The ids of the registered subscriptions, in registration order. */
  function Registered(subs: seq<Subscription>, n: nat): (r: seq<nat>)
    requires n <= |subs|
    ensures forall i: nat :: i in r <==> i < n && subs[i].registered
    ensures forall i :: 0 <= i < |r| ==> r[i] < n
    ensures forall i, j :: 0 <= i < j < |r| ==> r[i] < r[j]
  {
    if n == 0 then []
    else if subs[n - 1].registered then Registered(subs, n - 1) + [n - 1]
    else Registered(subs, n - 1)
  }

  /** One subscription's turn in `_dispatch_loop`. */
  function OfferTo(c: Config, sub: Subscription, id: nat, item: nat, now: int): Subscription {
    if sub.disabledUntil > now then
      if c.matches(id, item) then sub.(matched := sub.matched + [item], skipped := sub.skipped + [item]) else sub
    else if !c.matches(id, item) then sub
    else if |sub.mailbox| < MAILBOX then
      sub.(matched := sub.matched + [item], mailbox := sub.mailbox + [Announce(item)])
    else
      sub.(matched := sub.matched + [item], lost := sub.lost + [item], dropped := sub.dropped + 1,
           disabledUntil := if sub.disabledUntil >= now + c.cooldown then sub.disabledUntil else now + c.cooldown)
  }

  /** `_subscriber_loop` after `queue.get` returned. */
  function ReceiveIn(sub: Subscription, now: int): Subscription
    requires sub.mailbox != []
  {
    var rest := sub.(mailbox := sub.mailbox[1..]);
    match sub.mailbox[0]
    case Sentinel => rest.(thread := Exited)
    case Announce(id) =>
      if !sub.active then rest.(discarded := sub.discarded + [id])
      else if sub.disabledUntil > now then rest.(skipped := sub.skipped + [id])
      else rest.(delivered := sub.delivered + [id], thread := InCallback)
  }

  /** The callback came back: count a slow one and perhaps trip the breaker; one that raised is not timed. */
  function ReturnIn(c: Config, sub: Subscription, ending: Ending, now: int): Subscription {
    var t := sub.(thread := Waiting);
    match ending
    case Raised => t
    case Quick => t.(timeouts := 0)
    case Slow =>
      var u := t.(timeouts := sub.timeouts + 1);
      if u.timeouts >= c.threshold then u.(disabledUntil := now + c.cooldown) else u
  }

  /** `_stop_subscription`. */
  function StopIn(sub: Subscription): Subscription {
    sub.(registered := false, active := false,
         mailbox := if |sub.mailbox| < MAILBOX then sub.mailbox + [Sentinel] else sub.mailbox)
  }

  const NEW := Subscription(true, true, [], Waiting, 0, 0, 0, [], [], [], [], [])

  function Next(c: Config, s: State, a: Action): State {
    match a
    case Enqueue =>
      if |s.queue| < c.maxQueue then s.(queue := s.queue + [s.accepted], accepted := s.accepted + 1)
      else s.(queueDropped := s.queueDropped + 1)
    case Fetch =>
      if s.dispatch == Resting && s.queue != [] then
        s.(queue := s.queue[1..], dispatch := Offering(s.queue[0], Registered(s.subs, |s.subs|)))
      else s
    case Offer(now) =>
      if s.dispatch.Resting? then s
      else if s.dispatch.targets == [] then s.(dispatch := Resting)
      else
        var id := s.dispatch.targets[0];
        if id >= |s.subs| then s
        else
          var t := OfferTo(c, s.subs[id], id, s.dispatch.item, now);
          s.(subs := s.subs[id := t], dispatch := Offering(s.dispatch.item, s.dispatch.targets[1..]),
             droppedTotal := s.droppedTotal + (t.dropped - s.subs[id].dropped))
    case Receive(id, now) =>
      if id < |s.subs| && s.subs[id].thread == Waiting && s.subs[id].mailbox != [] then
        s.(subs := s.subs[id := ReceiveIn(s.subs[id], now)])
      else s
    case Return(id, ending, now) =>
      if id < |s.subs| && s.subs[id].thread == InCallback then
        s.(subs := s.subs[id := ReturnIn(c, s.subs[id], ending, now)])
      else s
    case Notice(id) =>
      if id < |s.subs| && s.subs[id].thread == Waiting && !s.subs[id].active then
        s.(subs := s.subs[id := s.subs[id].(thread := Exited)])
      else s
    case Subscribe => s.(subs := s.subs + [NEW])
    case Unsubscribe(id) =>
      if id < |s.subs| && s.subs[id].registered then s.(subs := s.subs[id := StopIn(s.subs[id])]) else s
  }

  // ---------------------------------------------------------------- what holds of one subscription

  function Items(box: seq<Mail>): seq<nat> {
    if box == [] then []
    else (if box[0].Announce? then [box[0].id] else []) + Items(box[1..])
  }

  lemma {:induction false} ItemsAppend(box: seq<Mail>, m: Mail)
    ensures Items(box + [m]) == Items(box) + (if m.Announce? then [m.id] else [])
  {
    if box == [] {
      assert [m][1..] == [] && [] + [m] == [m];
    } else {
      assert (box + [m])[0] == box[0] && (box + [m])[1..] == box[1..] + [m];
      ItemsAppend(box[1..], m);
    }
  }

  ghost predicate Increasing(s: seq<nat>) {
    forall i, j :: 0 <= i < j < |s| ==> s[i] < s[j]
  }

  /** Every announce in the sequence is below the bound. */
  ghost predicate Under(s: seq<nat>, bound: nat) {
    forall i :: 0 <= i < |s| ==> s[i] < bound
  }

  /** Exactly one fate for each matched announce. */
  ghost predicate OneFate(sub: Subscription) {
    forall x: nat :: Count(sub.matched, x) == Fates(sub, x)
  }

  /** How often the announce was delivered, waits, was lost, skipped or discarded, together. */
  ghost function Fates(sub: Subscription, x: nat): nat {
    Count(sub.delivered, x) + Count(Items(sub.mailbox), x) + Count(sub.lost, x)
    + Count(sub.skipped, x) + Count(sub.discarded, x)
  }

  function Count(s: seq<nat>, x: nat): nat {
    if s == [] then 0 else Count(s[..|s| - 1], x) + if s[|s| - 1] == x then 1 else 0
  }

  lemma CountAppend(s: seq<nat>, y: nat, x: nat)
    ensures Count(s + [y], x) == Count(s, x) + if y == x then 1 else 0
  {
    assert (s + [y])[..|s|] == s;
  }

  lemma {:induction false} CountPrepend(y: nat, s: seq<nat>, x: nat)
    ensures Count([y] + s, x) == (if y == x then 1 else 0) + Count(s, x)
  {
    if s == [] {
      assert [y] + s == [] + [y];
      CountAppend([], y, x);
    } else {
      var n := |s| - 1;
      assert s == s[..n] + [s[n]] && [y] + s == ([y] + s[..n]) + [s[n]];
      CountAppend([y] + s[..n], s[n], x);
      CountPrepend(y, s[..n], x);
    }
  }

  lemma {:induction false} CountMember(s: seq<nat>, x: nat)
    ensures x in s <==> Count(s, x) > 0
  {
    if s != [] {
      CountMember(s[..|s| - 1], x);
      assert s == s[..|s| - 1] + [s[|s| - 1]];
    }
  }

  /** No announce is matched twice, so the counts of the five fates add up to at most one. */
  lemma {:induction false} CountIncreasing(s: seq<nat>, x: nat)
    requires Increasing(s)
    ensures Count(s, x) <= 1
  {
    if s != [] {
      CountIncreasing(s[..|s| - 1], x);
      CountMember(s[..|s| - 1], x);
    }
  }

  ghost predicate SubInv(c: Config, sub: Subscription, id: nat, bound: nat) {
    && Increasing(sub.matched) && Under(sub.matched, bound)
    && (forall i :: i in sub.matched ==> c.matches(id, i))
    && Increasing(sub.delivered + Items(sub.mailbox)) && Under(sub.delivered + Items(sub.mailbox), bound)
    && OneFate(sub)
    && |sub.mailbox| <= MAILBOX
    && sub.dropped == |sub.lost|
  }

  lemma IncreasingAppend(s: seq<nat>, x: nat, bound: nat)
    requires Increasing(s) && Under(s, x) && x < bound
    ensures Increasing(s + [x]) && Under(s + [x], bound)
  {
  }

  lemma OfferFate(c: Config, sub: Subscription, id: nat, item: nat, now: int)
    requires OneFate(sub)
    ensures OneFate(OfferTo(c, sub, id, item, now))
  {
    ItemsAppend(sub.mailbox, Announce(item));
    hide Items, Count;
    var t := OfferTo(c, sub, id, item, now);
    forall x: nat ensures Count(t.matched, x) == Fates(t, x) {
      assert Count(sub.matched, x) == Fates(sub, x);
      CountAppend(sub.matched, item, x);
      CountAppend(Items(sub.mailbox), item, x);
      CountAppend(sub.lost, item, x);
      CountAppend(sub.skipped, item, x);
    }
  }

  lemma ReceiveFate(sub: Subscription, now: int)
    requires OneFate(sub) && sub.mailbox != []
    ensures OneFate(ReceiveIn(sub, now))
  {
    hide Count;
    var rest := Items(sub.mailbox[1..]);
    if sub.mailbox[0].Announce? {
      var i := sub.mailbox[0].id;
      assert Items(sub.mailbox) == [i] + rest;
      hide Items;
      var t := ReceiveIn(sub, now);
      forall x: nat ensures Count(t.matched, x) == Fates(t, x) {
        assert Count(sub.matched, x) == Fates(sub, x);
        CountPrepend(i, rest, x);
        CountAppend(sub.delivered, i, x);
        CountAppend(sub.skipped, i, x);
        CountAppend(sub.discarded, i, x);
      }
    } else {
      assert Items(sub.mailbox) == [] + rest == rest;
    }
  }

  lemma OfferSub(c: Config, sub: Subscription, id: nat, item: nat, now: int)
    requires SubInv(c, sub, id, item)
    ensures SubInv(c, OfferTo(c, sub, id, item, now), id, item + 1)
  {
    OfferFate(c, sub, id, item, now);
    hide OneFate;
    WeakenSub(c, sub, id, item, item + 1);
    if c.matches(id, item) {
      IncreasingAppend(sub.matched, item, item + 1);
      assert forall i :: i in sub.matched + [item] ==> i in sub.matched || i == item;
      if sub.disabledUntil <= now && |sub.mailbox| < MAILBOX {
        OfferMailbox(sub, item);
      }
      hide Items, Increasing, Under;
    }
  }

  lemma OfferMailbox(sub: Subscription, item: nat)
    requires Increasing(sub.delivered + Items(sub.mailbox)) && Under(sub.delivered + Items(sub.mailbox), item)
    ensures Items(sub.mailbox + [Announce(item)]) == Items(sub.mailbox) + [item]
    ensures Increasing(sub.delivered + Items(sub.mailbox + [Announce(item)]))
    ensures Under(sub.delivered + Items(sub.mailbox + [Announce(item)]), item + 1)
  {
    ItemsAppend(sub.mailbox, Announce(item));
    IncreasingAppend(sub.delivered + Items(sub.mailbox), item, item + 1);
    assert sub.delivered + (Items(sub.mailbox) + [item]) == (sub.delivered + Items(sub.mailbox)) + [item];
  }

  lemma ReceiveSub(c: Config, sub: Subscription, id: nat, bound: nat, now: int)
    requires SubInv(c, sub, id, bound) && sub.mailbox != []
    ensures SubInv(c, ReceiveIn(sub, now), id, bound)
  {
    ReceiveFate(sub, now);
    hide OneFate, Count;
    var rest := Items(sub.mailbox[1..]);
    if sub.mailbox[0].Announce? {
      var i := sub.mailbox[0].id;
      assert Items(sub.mailbox) == [i] + rest;
      hide Items;
      RemoveMiddle(sub.delivered, i, rest, bound);
      assert (sub.delivered + [i]) + rest == sub.delivered + ([i] + rest);
      hide Increasing, Under;
    } else {
      assert Items(sub.mailbox) == [] + rest == rest;
      hide Items, Increasing, Under;
    }
  }

  lemma RemoveMiddle(a: seq<nat>, x: nat, b: seq<nat>, bound: nat)
    requires Increasing(a + ([x] + b)) && Under(a + ([x] + b), bound)
    ensures Increasing(a + b) && Under(a + b, bound)
  {
    var s, t := a + ([x] + b), a + b;
    forall i | 0 <= i < |t| ensures t[i] == s[if i < |a| then i else i + 1] {
    }
  }

  lemma StopSub(c: Config, sub: Subscription, id: nat, bound: nat)
    requires SubInv(c, sub, id, bound)
    ensures SubInv(c, StopIn(sub), id, bound)
  {
    ItemsAppend(sub.mailbox, Sentinel);
    hide Items;
    assert Items(sub.mailbox) + [] == Items(sub.mailbox);
  }

  lemma WeakenSub(c: Config, sub: Subscription, id: nat, bound: nat, more: nat)
    requires SubInv(c, sub, id, bound) && bound <= more
    ensures SubInv(c, sub, id, more)
  {
  }

  // ---------------------------------------------------------------- what holds of the dispatcher

  /** How many accepted announces have been taken from the queue. */
  function Taken(s: State): int {
    s.accepted - |s.queue|
  }

  /** Announces below this number are already decided for the subscription. */
  ghost function Bound(s: State, id: nat): nat
    requires 0 <= Taken(s)
  {
    if s.dispatch.Offering? && id in s.dispatch.targets then s.dispatch.item else Taken(s)
  }

  function Drops(subs: seq<Subscription>): nat {
    if subs == [] then 0 else Drops(subs[..|subs| - 1]) + subs[|subs| - 1].dropped
  }

  ghost predicate QueueInv(c: Config, s: State) {
    && |s.queue| <= c.maxQueue && 0 <= Taken(s)
    && (forall i :: 0 <= i < |s.queue| ==> s.queue[i] == Taken(s) + i)
    && (s.dispatch.Offering? ==>
          && s.dispatch.item + 1 == Taken(s)
          && (forall i, j :: 0 <= i < j < |s.dispatch.targets| ==> s.dispatch.targets[i] != s.dispatch.targets[j])
          && (forall i :: i in s.dispatch.targets ==> i < |s.subs|))
  }

  ghost predicate Inv(c: Config, s: State) {
    && QueueInv(c, s)
    && (forall id :: 0 <= id < |s.subs| ==> SubInv(c, s.subs[id], id, Bound(s, id)))
    && s.droppedTotal == Drops(s.subs)
  }

  lemma {:induction false} DropsUpdate(subs: seq<Subscription>, id: nat, t: Subscription)
    requires id < |subs|
    ensures Drops(subs[id := t]) == Drops(subs) - subs[id].dropped + t.dropped
  {
    var n := |subs| - 1;
    if id == n {
      assert subs[id := t][..n] == subs[..n];
    } else {
      assert subs[id := t][..n] == subs[..n][id := t];
      DropsUpdate(subs[..n], id, t);
    }
  }

  lemma OneSubKeeps(c: Config, s: State, s': State, id: nat)
    requires Inv(c, s) && id < |s.subs|
    requires s' == s.(subs := s'.subs) && |s'.subs| == |s.subs| && s'.subs == s.subs[id := s'.subs[id]]
    requires SubInv(c, s'.subs[id], id, Bound(s, id)) && s'.subs[id].dropped == s.subs[id].dropped
    ensures Inv(c, s')
  {
    DropsUpdate(s.subs, id, s'.subs[id]);
    hide SubInv, Drops;
    assert QueueInv(c, s');
    forall i | 0 <= i < |s'.subs| ensures SubInv(c, s'.subs[i], i, Bound(s', i)) {
      assert Bound(s', i) == Bound(s, i);
    }
  }

  lemma OfferKeeps(c: Config, s: State, now: int)
    requires Inv(c, s)
    ensures Inv(c, Next(c, s, Offer(now)))
  {
    if s.dispatch.Offering? && s.dispatch.targets != [] {
      OfferOneKeeps(c, s, now);
    } else if s.dispatch.Offering? {
      var s' := Next(c, s, Offer(now));
      hide SubInv, Drops;
      forall i | 0 <= i < |s'.subs| ensures SubInv(c, s'.subs[i], i, Bound(s', i)) {
        assert Bound(s', i) == Bound(s, i);
      }
    }
  }

  lemma OfferOneKeeps(c: Config, s: State, now: int)
    requires Inv(c, s) && s.dispatch.Offering? && s.dispatch.targets != []
    ensures Inv(c, Next(c, s, Offer(now)))
  {
    hide SubInv, Drops, OfferTo;
    OfferQueue(c, s, now);
    var targets := s.dispatch.targets;
    var id, item := targets[0], s.dispatch.item;
    assert id in targets;
    var t := OfferTo(c, s.subs[id], id, item, now);
    OfferSub(c, s.subs[id], id, item, now);
    DropsUpdate(s.subs, id, t);
    OfferCounts(c, s.subs[id], id, item, now);
    var s' := Next(c, s, Offer(now));
    hide QueueInv;
    forall i | 0 <= i < |s'.subs| ensures SubInv(c, s'.subs[i], i, Bound(s', i)) {
      assert i != id ==> Bound(s', i) == Bound(s, i);
    }
  }

  /** The queue part of the invariant, and who is still to be offered the announce. */
  lemma OfferQueue(c: Config, s: State, now: int)
    requires QueueInv(c, s) && s.dispatch.Offering? && s.dispatch.targets != []
    ensures s.dispatch.targets[0] < |s.subs|
    ensures QueueInv(c, Next(c, s, Offer(now)))
    ensures s.dispatch.targets[0] !in s.dispatch.targets[1..]
    ensures forall i :: i != s.dispatch.targets[0] ==> (i in s.dispatch.targets <==> i in s.dispatch.targets[1..])
  {
    hide OfferTo;
    var targets := s.dispatch.targets;
    assert targets[0] in targets;
    assert targets == [targets[0]] + targets[1..];
    assert forall k :: 0 <= k < |targets| - 1 ==> targets[1..][k] == targets[k + 1];
    assert forall i :: i in targets[1..] ==> i in targets;
  }

  lemma OfferCounts(c: Config, sub: Subscription, id: nat, item: nat, now: int)
    ensures sub.dropped <= OfferTo(c, sub, id, item, now).dropped <= sub.dropped + 1
  {
  }

  lemma QueueKeeps(c: Config, s: State, a: Action)
    requires Inv(c, s) && (a.Enqueue? || a.Fetch? || a.Subscribe?)
    ensures Inv(c, Next(c, s, a))
  {
    var s' := Next(c, s, a);
    if a.Subscribe? {
      assert s'.subs[..|s.subs|] == s.subs;
      assert SubInv(c, NEW, |s.subs|, Taken(s));
    }
    hide SubInv, Drops;
    assert QueueInv(c, s') by {
      if a.Fetch? && s' != s {
        assert forall i :: 0 <= i < |s'.queue| ==> s'.queue[i] == s.queue[i + 1];
      }
    }
    forall i | 0 <= i < |s'.subs| ensures SubInv(c, s'.subs[i], i, Bound(s', i)) {
      if i < |s.subs| {
        assert s'.subs[i] == s.subs[i] && Bound(s, i) <= Bound(s', i);
        WeakenSub(c, s.subs[i], i, Bound(s, i), Bound(s', i));
      }
    }
  }

  lemma StepKeeps(c: Config, s: State, a: Action)
    requires Inv(c, s)
    ensures Inv(c, Next(c, s, a))
  {
    match a
    case Enqueue => QueueKeeps(c, s, a);
    case Fetch => QueueKeeps(c, s, a);
    case Subscribe => QueueKeeps(c, s, a);
    case Offer(now) => OfferKeeps(c, s, now);
    case Receive(id, now) => OwnStepKeeps(c, s, a, id);
    case Return(id, ending, now) => OwnStepKeeps(c, s, a, id);
    case Notice(id) => OwnStepKeeps(c, s, a, id);
    case Unsubscribe(id) => OwnStepKeeps(c, s, a, id);
  }

  /** A step of one subscription, of its thread or by its owner. */
  lemma OwnStepKeeps(c: Config, s: State, a: Action, id: nat)
    requires Inv(c, s)
    requires (a.Receive? || a.Return? || a.Notice? || a.Unsubscribe?) && a.sub == id
    ensures Inv(c, Next(c, s, a))
  {
    hide Inv, SubInv;
    if id < |s.subs| && Next(c, s, a) != s {
      OwnStepSub(c, s, a, id);
      OneSubKeeps(c, s, Next(c, s, a), id);
    }
  }

  lemma OwnStepSub(c: Config, s: State, a: Action, id: nat)
    requires Inv(c, s) && id < |s.subs| && Next(c, s, a) != s
    requires (a.Receive? || a.Return? || a.Notice? || a.Unsubscribe?) && a.sub == id
    ensures SubInv(c, Next(c, s, a).subs[id], id, Bound(s, id))
    ensures Next(c, s, a).subs[id].dropped == s.subs[id].dropped
  {
    var sub, bound := s.subs[id], Bound(s, id);
    assert SubInv(c, sub, id, bound);
    hide Inv, QueueInv;
    match a
    case Receive(_, now) => ReceiveSub(c, sub, id, bound, now);
    case Return(_, _, _) =>
    case Notice(_) =>
    case Unsubscribe(_) => StopSub(c, sub, id, bound);
  }

  function Run(c: Config, s: State, acts: seq<Action>): State
    decreases |acts|
  {
    if acts == [] then s else Run(c, Next(c, s, acts[0]), acts[1..])
  }

  const START := State([], 0, 0, Resting, [], 0)

  lemma {:induction false} RunKeeps(c: Config, s: State, acts: seq<Action>)
    requires Inv(c, s)
    ensures Inv(c, Run(c, s, acts))
    decreases |acts|
  {
    if acts != [] {
      StepKeeps(c, s, acts[0]);
      hide Inv, Next;
      RunKeeps(c, Next(c, s, acts[0]), acts[1..]);
    }
  }

  /**
   * In every interleaving: a subscriber's callbacks see matching accepted
   * announces in order and none twice; every announce dispatched to it that
   * matched is exactly one of delivered, waiting in the mailbox, lost to a full
   * mailbox, skipped by an open breaker or discarded after unsubscribing; and
   * the global drop counter is the sum of the subscribers' counters.
   */
  lemma EveryInterleaving(c: Config, acts: seq<Action>)
    ensures var s := Run(c, START, acts);
      && (forall id :: 0 <= id < |s.subs| ==>
            && Increasing(s.subs[id].delivered)
            && (forall i :: i in s.subs[id].delivered ==> i < s.accepted && c.matches(id, i))
            && (forall x: nat :: Fates(s.subs[id], x) == if x in s.subs[id].matched then 1 else 0)
            && s.subs[id].dropped == |s.subs[id].lost|)
      && s.droppedTotal == Drops(s.subs)
      && |s.queue| <= c.maxQueue
  {
    RunKeeps(c, START, acts);
    var s := Run(c, START, acts);
    hide Run;
    forall id | 0 <= id < |s.subs|
      ensures Increasing(s.subs[id].delivered)
      ensures forall i :: i in s.subs[id].delivered ==> i < s.accepted && c.matches(id, i)
      ensures forall x: nat :: Fates(s.subs[id], x) == if x in s.subs[id].matched then 1 else 0
    {
      DeliveredFacts(c, s.subs[id], id, Bound(s, id));
    }
  }

  // ---------------------------------------------------------------- nothing dispatched goes unaccounted

  /** The dispatch loop is about to offer its announce to this subscription. */
  predicate OffersNow(s: State, a: Action, id: nat) {
    a.Offer? && s.dispatch.Offering? && s.dispatch.targets != [] && s.dispatch.targets[0] == id && id < |s.subs|
  }

  /** The announces offered to a subscription during a run, in order. */
  function Offered(c: Config, s: State, acts: seq<Action>, id: nat): seq<nat>
    decreases |acts|
  {
    if acts == [] then []
    else (if OffersNow(s, acts[0], id) then [s.dispatch.item] else []) + Offered(c, Next(c, s, acts[0]), acts[1..], id)
  }

  function Matching(c: Config, id: nat, items: seq<nat>): seq<nat> {
    if items == [] then []
    else (if c.matches(id, items[0]) then [items[0]] else []) + Matching(c, id, items[1..])
  }

  lemma {:induction false} MatchingConcat(c: Config, id: nat, a: seq<nat>, b: seq<nat>)
    ensures Matching(c, id, a + b) == Matching(c, id, a) + Matching(c, id, b)
  {
    if a == [] {
      assert a + b == b;
    } else {
      assert (a + b)[0] == a[0] && (a + b)[1..] == a[1..] + b;
      MatchingConcat(c, id, a[1..], b);
    }
  }

  lemma StepAccounts(c: Config, s: State, a: Action, id: nat)
    requires id < |s.subs|
    ensures id < |Next(c, s, a).subs|
    ensures Next(c, s, a).subs[id].matched ==
            s.subs[id].matched + (if OffersNow(s, a, id) then Matching(c, id, [s.dispatch.item]) else [])
  {
    if OffersNow(s, a, id) {
      assert [s.dispatch.item][1..] == [];
    }
  }

  /**
   * The announces with a fate are exactly the matching ones among those offered,
   * in order: none is lost without being counted.
   */
  lemma {:induction false} MatchedIsOffered(c: Config, s: State, acts: seq<Action>, id: nat)
    requires id < |s.subs|
    ensures id < |Run(c, s, acts).subs|
    ensures Run(c, s, acts).subs[id].matched == s.subs[id].matched + Matching(c, id, Offered(c, s, acts, id))
    decreases |acts|
  {
    if acts != [] {
      hide Next, Matching, OffersNow;
      StepAccounts(c, s, acts[0], id);
      var t := Next(c, s, acts[0]);
      var first := if OffersNow(s, acts[0], id) then [s.dispatch.item] else [];
      var rest := Offered(c, t, acts[1..], id);
      NothingMatches(c, id);
      MatchedIsOffered(c, t, acts[1..], id);
      MatchingConcat(c, id, first, rest);
      assert Offered(c, s, acts, id) == first + rest && Run(c, s, acts) == Run(c, t, acts[1..]);
      assert t.subs[id].matched == s.subs[id].matched + Matching(c, id, first);
    }
  }

  lemma NothingMatches(c: Config, id: nat)
    ensures Matching(c, id, []) == []
  {
  }

  /** Once fetched, an announce is offered to every subscription of the snapshot before the loop rests again. */
  lemma {:induction false} EveryTargetOffered(c: Config, s: State, acts: seq<Action>, id: nat)
    requires s.dispatch.Offering? && id in s.dispatch.targets
    requires forall i :: i in s.dispatch.targets ==> i < |s.subs|
    requires Run(c, s, acts).dispatch == Resting
    ensures s.dispatch.item in Offered(c, s, acts, id)
    decreases |acts|
  {
    var t := Next(c, s, acts[0]);
    if !OffersNow(s, acts[0], id) {
      DispatchKept(c, s, acts[0], id);
      hide Next;
      EveryTargetOffered(c, t, acts[1..], id);
    }
  }

  lemma DispatchKept(c: Config, s: State, a: Action, id: nat)
    requires s.dispatch.Offering? && id in s.dispatch.targets && !OffersNow(s, a, id)
    requires forall i :: i in s.dispatch.targets ==> i < |s.subs|
    ensures var t := Next(c, s, a);
      && t.dispatch.Offering? && t.dispatch.item == s.dispatch.item && id in t.dispatch.targets
      && forall i :: i in t.dispatch.targets ==> i < |t.subs|
  {
    var targets, t := s.dispatch.targets, Next(c, s, a);
    assert targets == [targets[0]] + targets[1..];
    assert forall i :: i in targets[1..] ==> i in targets;
    assert |t.subs| >= |s.subs| && (t.dispatch.targets == targets || t.dispatch.targets == targets[1..]);
  }

  // ---------------------------------------------------------------- what each step does to a subscription

  /** Nothing but this subscription differs, apart from the dispatch position and the global drop counter. */
  ghost predicate OnlySub(s: State, t: State, id: nat) {
    && |t.subs| == |s.subs| && (forall j :: 0 <= j < |s.subs| && j != id ==> t.subs[j] == s.subs[j])
    && t.queue == s.queue && t.accepted == s.accepted && t.queueDropped == s.queueDropped
  }

  /**
   * What one turn with an announce makes of a subscription: a match is queued
   * exactly when the breaker is closed and the mailbox has room, skipped exactly
   * when the breaker is open, and lost exactly when the breaker is closed and the
   * mailbox full, which opens the breaker and counts a drop.  Otherwise nothing
   * changes.
   */
  ghost predicate OfferOutcome(c: Config, a: Subscription, b: Subscription, id: nat, item: nat, now: int) {
    if !c.matches(id, item) then b == a
    else
      && b.matched == a.matched + [item]
      && (b.mailbox == a.mailbox + [Announce(item)] <==> a.disabledUntil <= now && |a.mailbox| < MAILBOX)
      && (b.skipped == a.skipped + [item] <==> a.disabledUntil > now)
      && (b.lost == a.lost + [item] <==> a.disabledUntil <= now && |a.mailbox| >= MAILBOX)
      && (b.mailbox == a.mailbox || b.mailbox == a.mailbox + [Announce(item)])
      && (b.skipped == a.skipped || b.skipped == a.skipped + [item])
      && (b.lost == a.lost || b.lost == a.lost + [item])
      && b.dropped - a.dropped == |b.lost| - |a.lost|
      && (b.lost == a.lost ==> b.disabledUntil == a.disabledUntil)
      && (b.lost != a.lost ==>
            b.disabledUntil >= a.disabledUntil && b.disabledUntil >= now + c.cooldown
            && b.disabledUntil in {a.disabledUntil, now + c.cooldown})
      && b.delivered == a.delivered && b.discarded == a.discarded && b.thread == a.thread
      && b.timeouts == a.timeouts && b.active == a.active && b.registered == a.registered
  }

  /** An offer gives exactly that outcome to the subscription whose turn it is, and moves on to the next. */
  lemma OfferExact(c: Config, s: State, now: int)
    requires s.dispatch.Offering? && s.dispatch.targets != [] && s.dispatch.targets[0] < |s.subs|
    ensures var id, item, t := s.dispatch.targets[0], s.dispatch.item, Next(c, s, Offer(now));
      && OnlySub(s, t, id) && t.dispatch == Offering(item, s.dispatch.targets[1..])
      && var a, b := s.subs[id], t.subs[id];
      && t.droppedTotal - s.droppedTotal == b.dropped - a.dropped
      && OfferOutcome(c, a, b, id, item, now)
  {
    OfferToOutcome(c, s.subs[s.dispatch.targets[0]], s.dispatch.targets[0], s.dispatch.item, now);
    hide OfferTo, OfferOutcome;
  }

  lemma OfferToOutcome(c: Config, a: Subscription, id: nat, item: nat, now: int)
    ensures OfferOutcome(c, a, OfferTo(c, a, id, item, now), id, item, now)
  {
    assert |a.mailbox + [Announce(item)]| != |a.mailbox| && |a.skipped + [item]| != |a.skipped|;
    assert |a.lost + [item]| != |a.lost|;
  }

  /**
   * A waiting thread takes its oldest mail: the callback runs exactly when that is
   * an announce, the subscription is active and the breaker is closed; the stop
   * mark ends the thread.
   */
  lemma ReceiveExact(c: Config, s: State, id: nat, now: int)
    requires id < |s.subs| && s.subs[id].thread == Waiting && s.subs[id].mailbox != []
    ensures var t := Next(c, s, Receive(id, now));
      && OnlySub(s, t, id) && t.dispatch == s.dispatch && t.droppedTotal == s.droppedTotal
      && var a, b := s.subs[id], t.subs[id];
      && a.mailbox == [a.mailbox[0]] + b.mailbox
      && match a.mailbox[0]
         case Sentinel => b == a.(mailbox := b.mailbox, thread := Exited)
         case Announce(item) =>
           && (b.thread == InCallback <==> a.active && a.disabledUntil <= now)
           && (b.delivered == a.delivered + [item] <==> a.active && a.disabledUntil <= now)
           && (b.skipped == a.skipped + [item] <==> a.active && a.disabledUntil > now)
           && (b.discarded == a.discarded + [item] <==> !a.active)
           && (b.delivered == a.delivered || b.delivered == a.delivered + [item])
           && (b.skipped == a.skipped || b.skipped == a.skipped + [item])
           && (b.discarded == a.discarded || b.discarded == a.discarded + [item])
           && b == a.(mailbox := b.mailbox, thread := b.thread, delivered := b.delivered, skipped := b.skipped,
                      discarded := b.discarded)
           && b.thread in {Waiting, InCallback}
  {
    var a := s.subs[id];
    if a.mailbox[0].Announce? {
      var item := a.mailbox[0].id;
      assert |a.delivered + [item]| != |a.delivered| && |a.skipped + [item]| != |a.skipped|;
      assert |a.discarded + [item]| != |a.discarded|;
    }
  }

  /**
   * The breaker opens exactly when a slow callback reaches the threshold of
   * consecutive slow ones; a quick one starts the count again.
   */
  lemma ReturnExact(c: Config, s: State, id: nat, ending: Ending, now: int)
    requires id < |s.subs| && s.subs[id].thread == InCallback
    ensures var t := Next(c, s, Return(id, ending, now));
      && OnlySub(s, t, id) && t.dispatch == s.dispatch && t.droppedTotal == s.droppedTotal
      && var a, b := s.subs[id], t.subs[id];
      && b == a.(thread := Waiting, timeouts := b.timeouts, disabledUntil := b.disabledUntil)
      && (ending == Quick ==> b.timeouts == 0)
      && (ending == Slow ==> b.timeouts == a.timeouts + 1)
      && (ending == Raised ==> b.timeouts == a.timeouts)
      && b.disabledUntil ==
         if ending == Slow && a.timeouts + 1 >= c.threshold then now + c.cooldown else a.disabledUntil
  {
  }

  /** Unsubscribing marks the subscription and wakes its thread if the mailbox has room; mail stays where it is. */
  lemma UnsubscribeExact(c: Config, s: State, id: nat)
    requires id < |s.subs| && s.subs[id].registered
    ensures var t := Next(c, s, Unsubscribe(id));
      && OnlySub(s, t, id) && t.dispatch == s.dispatch && t.droppedTotal == s.droppedTotal
      && var a, b := s.subs[id], t.subs[id];
      && !b.registered && !b.active && b == a.(registered := false, active := false, mailbox := b.mailbox)
      && b.mailbox == a.mailbox + (if |a.mailbox| < MAILBOX then [Sentinel] else [])
      && id !in Registered(t.subs, |t.subs|)
  {
  }

  /** An announce is accepted exactly when the dispatch queue has room, at its end and under the next number. */
  lemma EnqueueExact(c: Config, s: State)
    ensures var t := Next(c, s, Enqueue);
      && (|s.queue| < c.maxQueue <==> t.queue == s.queue + [s.accepted])
      && (|s.queue| < c.maxQueue <==> t.accepted == s.accepted + 1)
      && (|s.queue| >= c.maxQueue <==> t.queueDropped == s.queueDropped + 1)
      && t.subs == s.subs && t.dispatch == s.dispatch && t.droppedTotal == s.droppedTotal
  {
    assert |s.queue + [s.accepted]| != |s.queue|;
  }

  /** The resting loop takes the oldest announce, for exactly the subscriptions registered then. */
  lemma FetchExact(c: Config, s: State)
    requires s.dispatch == Resting && s.queue != []
    ensures var t := Next(c, s, Fetch);
      && t == s.(queue := t.queue, dispatch := t.dispatch) && s.queue == [s.queue[0]] + t.queue
      && t.dispatch.Offering? && t.dispatch.item == s.queue[0]
      && forall id: nat :: id in t.dispatch.targets <==> id < |s.subs| && s.subs[id].registered
  {
  }

  /** With nobody left to offer the announce to, the loop rests and nothing else changes. */
  lemma RestExact(c: Config, s: State, now: int)
    requires s.dispatch.Offering? && s.dispatch.targets == []
    ensures Next(c, s, Offer(now)) == s.(dispatch := Resting)
  {
  }

  /** A thread leaves its loop without mail exactly when its subscription has been stopped. */
  lemma NoticeExact(c: Config, s: State, id: nat)
    requires id < |s.subs| && s.subs[id].thread == Waiting
    ensures var t := Next(c, s, Notice(id));
      && OnlySub(s, t, id) && t.dispatch == s.dispatch && t.droppedTotal == s.droppedTotal
      && t.subs[id] == s.subs[id].(thread := t.subs[id].thread)
      && t.subs[id].thread == (if s.subs[id].active then Waiting else Exited)
  {
  }

  // ---------------------------------------------------------------- a subscription without trouble

  /** The step does not stop this subscription, and finds its breaker closed and its mailbox not full. */
  ghost predicate NoTrouble(s: State, a: Action, id: nat)
    requires id < |s.subs|
  {
    && a != Unsubscribe(id)
    && (OffersNow(s, a, id) ==> s.subs[id].disabledUntil <= a.now && |s.subs[id].mailbox| < MAILBOX)
    && (a.Receive? && a.sub == id ==> s.subs[id].disabledUntil <= a.now)
  }

  ghost predicate Untroubled(c: Config, s: State, acts: seq<Action>, id: nat)
    requires id < |s.subs|
    decreases |acts|
  {
    acts == [] ||
    (NoTrouble(s, acts[0], id) && |s.subs| <= |Next(c, s, acts[0]).subs|
     && Untroubled(c, Next(c, s, acts[0]), acts[1..], id))
  }

  /** Everything that matched has been delivered or waits, in order. */
  ghost predicate Healthy(sub: Subscription) {
    && sub.active && sub.delivered + Items(sub.mailbox) == sub.matched
    && forall i :: 0 <= i < |sub.mailbox| ==> sub.mailbox[i].Announce?
  }

  lemma HealthyOffer(a: Subscription, b: Subscription, item: nat)
    requires Healthy(a) && b.active && b.delivered == a.delivered && b.matched == a.matched + [item]
    requires b.mailbox == a.mailbox + [Announce(item)]
    ensures Healthy(b)
  {
    ItemsAppend(a.mailbox, Announce(item));
    hide Items;
    assert b.delivered + (Items(a.mailbox) + [item]) == (a.delivered + Items(a.mailbox)) + [item];
  }

  lemma HealthyReceive(a: Subscription, b: Subscription)
    requires Healthy(a) && a.mailbox != [] && b.active && b.mailbox == a.mailbox[1..] && b.matched == a.matched
    requires b.delivered == a.delivered + [a.mailbox[0].id]
    ensures Healthy(b)
  {
    assert Items(a.mailbox) == [a.mailbox[0].id] + Items(b.mailbox);
    hide Items;
    assert b.delivered + Items(b.mailbox) == a.delivered + ([a.mailbox[0].id] + Items(b.mailbox));
  }

  lemma StepHealthy(c: Config, s: State, a: Action, id: nat)
    requires id < |s.subs| && Healthy(s.subs[id]) && NoTrouble(s, a, id)
    ensures id < |Next(c, s, a).subs| && Healthy(Next(c, s, a).subs[id])
  {
    if OffersNow(s, a, id) {
      OfferExact(c, s, a.now);
      hide Next;
      if c.matches(id, s.dispatch.item) {
        HealthyOffer(s.subs[id], Next(c, s, a).subs[id], s.dispatch.item);
      }
    } else if a.Receive? && a.sub == id && s.subs[id].thread == Waiting && s.subs[id].mailbox != [] {
      ReceiveExact(c, s, id, a.now);
      hide Next;
      HealthyReceive(s.subs[id], Next(c, s, a).subs[id]);
    }
  }

  /**
   * A subscription that is never stopped, and whose breaker is closed and mailbox
   * not full whenever it matters, loses nothing: what was delivered, followed by
   * what waits, is every matching announce offered to it, in order.
   */
  lemma {:induction false} UntroubledDelivers(c: Config, s: State, acts: seq<Action>, id: nat)
    requires id < |s.subs| && Healthy(s.subs[id]) && Untroubled(c, s, acts, id)
    ensures id < |Run(c, s, acts).subs|
    ensures var t := Run(c, s, acts).subs[id];
      && t.delivered + Items(t.mailbox) == t.matched
      && t.matched == s.subs[id].matched + Matching(c, id, Offered(c, s, acts, id))
    decreases |acts|
  {
    MatchedIsOffered(c, s, acts, id);
    if acts != [] {
      StepHealthy(c, s, acts[0], id);
      hide Next, Healthy, NoTrouble, Matching, Items;
      UntroubledDelivers(c, Next(c, s, acts[0]), acts[1..], id);
    }
  }

  /** A fresh subscription starts healthy. */
  lemma NewIsHealthy(c: Config, s: State)
    ensures var t := Next(c, s, Subscribe);
      && |t.subs| == |s.subs| + 1 && Healthy(t.subs[|s.subs|]) && t.subs[..|s.subs|] == s.subs
      && t.subs[|s.subs|].matched == [] && |s.subs| in Registered(t.subs, |t.subs|)
      && t.subs[|s.subs|].timeouts == 0 && t.subs[|s.subs|].disabledUntil == 0 && t.subs[|s.subs|].mailbox == []
      && t.queue == s.queue && t.dispatch == s.dispatch
  {
  }

  lemma DeliveredFacts(c: Config, sub: Subscription, id: nat, bound: nat)
    requires SubInv(c, sub, id, bound)
    ensures Increasing(sub.delivered)
    ensures forall i :: i in sub.delivered ==> i < bound && c.matches(id, i)
    ensures forall x: nat :: Fates(sub, x) == if x in sub.matched then 1 else 0
  {
    forall x: nat ensures Fates(sub, x) == if x in sub.matched then 1 else 0 {
      CountMember(sub.matched, x);
      CountIncreasing(sub.matched, x);
    }
    var whole := sub.delivered + Items(sub.mailbox);
    hide Items;
    assert forall k :: 0 <= k < |sub.delivered| ==> sub.delivered[k] == whole[k];
    forall i | i in sub.delivered ensures i < bound && c.matches(id, i) {
      CountMember(sub.delivered, i);
      CountMember(sub.matched, i);
    }
  }

  lemma RunNone(c: Config, s: State)
    ensures Run(c, s, []) == s
  {
  }

  lemma {:induction false} RunSnoc(c: Config, s: State, acts: seq<Action>, a: Action)
    ensures Run(c, s, acts + [a]) == Next(c, Run(c, s, acts), a)
    decreases |acts|
  {
    if acts == [] {
      assert [a][1..] == [] && [] + [a] == [a];
    } else {
      assert (acts + [a])[0] == acts[0] && (acts + [a])[1..] == acts[1..] + [a];
      RunSnoc(c, Next(c, s, acts[0]), acts[1..], a);
    }
  }

  /** Exactly the targets have had their turn with the announce, each at its own reading of the clock. */
  ghost predicate OfferedTo(c: Config, before: seq<Subscription>, after: seq<Subscription>, targets: seq<nat>,
                            item: nat, clock: nat -> int)
  {
    && |after| == |before|
    && (forall j :: 0 <= j < |targets| ==>
          targets[j] < |before| && OfferOutcome(c, before[targets[j]], after[targets[j]], targets[j], item, clock(j)))
    && (forall id :: 0 <= id < |before| && id !in targets ==> after[id] == before[id])
  }

  lemma OfferedNone(c: Config, subs: seq<Subscription>, item: nat, clock: nat -> int)
    ensures OfferedTo(c, subs, subs, [], item, clock)
  {
  }

  lemma OfferedOneMore(c: Config, before: seq<Subscription>, after: seq<Subscription>, targets: seq<nat>, k: nat,
                       item: nat, clock: nat -> int)
    requires k < |targets| && targets[k] < |before| && OfferedTo(c, before, after, targets[..k], item, clock)
    requires forall i, j :: 0 <= i < j < |targets| ==> targets[i] < targets[j]
    ensures targets[k] < |after|
    ensures OfferedTo(c, before, after[targets[k] := OfferTo(c, after[targets[k]], targets[k], item, clock(k))],
                      targets[..k + 1], item, clock)
  {
    hide OfferTo, OfferOutcome;
    OfferToOutcome(c, before[targets[k]], targets[k], item, clock(k));
    assert targets[..k + 1] == targets[..k] + [targets[k]];
    assert targets[k] !in targets[..k];
  }

  /** The dispatcher's fields, changed in place by its threads. */
  class AnnounceDispatcher {
    const c: Config
    var queue: seq<nat>
    var accepted: nat
    var queueDropped: nat
    var dispatch: Dispatch
    var subs: seq<Subscription>
    var droppedTotal: nat

    ghost function View(): State
      reads this
    {
      State(queue, accepted, queueDropped, dispatch, subs, droppedTotal)
    }

    constructor (c: Config)
      ensures this.c == c && View() == START
    {
      this.c := c;
      queue, accepted, queueDropped, dispatch, subs, droppedTotal := [], 0, 0, Resting, [], 0;
    }

    /** `_enqueue`. */
    method EnqueueAnnounce()
      modifies this
      ensures View() == Next(c, old(View()), Enqueue)
    {
      if |queue| < c.maxQueue {
        queue := queue + [accepted];
        accepted := accepted + 1;
      } else {
        queueDropped := queueDropped + 1;
      }
    }

    /** One turn of `_dispatch_loop`: take an announce and offer it to a snapshot of the subscriptions. */
    method DispatchOne(clock: nat -> int) returns (ghost acts: seq<Action>)
      requires dispatch == Resting
      modifies this
      ensures dispatch == Resting
      ensures View() == Run(c, old(View()), acts)
      ensures old(queue) == [] ==> View() == old(View())
      ensures old(queue) != [] ==>
        queue == old(queue)[1..]
        && OfferedTo(c, old(subs), subs, Registered(old(subs), |old(subs)|), old(queue)[0], clock)
    {
      hide Run, OfferTo, OfferedTo;
      ghost var s := View();
      acts := [];
      RunNone(c, s);
      if queue == [] {
        return;
      }
      RunSnoc(c, s, acts, Fetch);
      dispatch := Offering(queue[0], Registered(subs, |subs|));
      queue := queue[1..];
      acts := acts + [Fetch];
      var item, targets := dispatch.item, dispatch.targets;
      ghost var subs0 := subs;
      assert targets[..0] == [];
      OfferedNone(c, subs, item, clock);
      var k := 0;
      while k < |targets|
        invariant k <= |targets|
        invariant dispatch == Offering(item, targets[k..])
        invariant queue == old(queue)[1..] && OfferedTo(c, subs0, subs, targets[..k], item, clock)
        invariant View() == Run(c, s, acts)
      {
        var id := targets[k];
        assert id in targets;
        var now := clock(k);
        RunSnoc(c, s, acts, Offer(now));
        assert targets[k..][0] == id && targets[k..][1..] == targets[k + 1..];
        OfferedOneMore(c, subs0, subs, targets, k, item, clock);
        OfferNext(id, item, now);
        acts := acts + [Offer(now)];
        k := k + 1;
      }
      assert targets[..k] == targets;
      RunSnoc(c, s, acts, Offer(0));
      dispatch := Resting;
      acts := acts + [Offer(0)];
    }

    /** One subscription's turn. */
    method OfferNext(id: nat, item: nat, now: int)
      requires id < |subs| && dispatch.Offering? && dispatch.item == item
      requires dispatch.targets != [] && dispatch.targets[0] == id
      modifies this
      ensures View() == Next(c, old(View()), Offer(now))
      ensures dispatch == Offering(item, old(dispatch).targets[1..]) && queue == old(queue)
      ensures subs == old(subs)[id := OfferTo(c, old(subs)[id], id, item, now)]
    {
      var t := OfferTo(c, subs[id], id, item, now);
      OfferCounts(c, subs[id], id, item, now);
      droppedTotal := droppedTotal + (t.dropped - subs[id].dropped);
      subs := subs[id := t];
      dispatch := Offering(item, dispatch.targets[1..]);
    }

    /** `subscribe`. */
    method AddSubscription() returns (id: nat)
      modifies this
      ensures View() == Next(c, old(View()), Subscribe)
      ensures id == old(|subs|) && subs[id] == NEW
    {
      id := |subs|;
      subs := subs + [NEW];
    }

    /** `unsubscribe`; an unknown or already removed id is ignored. */
    method RemoveSubscription(id: nat)
      modifies this
      ensures View() == Next(c, old(View()), Unsubscribe(id))
    {
      if id < |subs| && subs[id].registered {
        subs := subs[id := StopIn(subs[id])];
      }
    }

    /** `_subscriber_loop` after the callback. */
    method CallbackEnded(id: nat, ending: Ending, now: int)
      modifies this
      ensures View() == Next(c, old(View()), Return(id, ending, now))
    {
      if id >= |subs| || subs[id].thread != InCallback {
        return;
      }
      var sub := subs[id].(thread := Waiting);
      if ending == Slow {
        sub := sub.(timeouts := sub.timeouts + 1);
        if sub.timeouts >= c.threshold {
          sub := sub.(disabledUntil := now + c.cooldown);
        }
      } else if ending == Quick {
        sub := sub.(timeouts := 0);
      }
      subs := subs[id := sub];
    }

    /** `_subscriber_loop` from one `get` up to the callback. */
    method ReceiveNext(id: nat, now: int)
      modifies this
      ensures View() == Next(c, old(View()), Receive(id, now))
    {
      if id < |subs| && subs[id].thread == Waiting && subs[id].mailbox != [] {
        subs := subs[id := ReceiveIn(subs[id], now)];
      }
    }
  }
}
