/**
 * `BoundedDaemonExecutor`: a bounded first-in first-out queue shared by
 * submitters, workers and one shutdown, in every interleaving of their atomic
 * steps.
 */
module DaemonExecutor {
  import opened Prelude

  datatype Item = Work(id: nat) | Stop

  datatype Future = Pending | Running | Cancelled | Done

  /** A worker is waiting, holds an item it just took, runs it, or has returned. */
  datatype Worker = Idle | Holding(id: nat) | Busy(id: nat) | Exited

  /** Where the single effective call of `shutdown` is. */
  datatype Closing = Open | Draining | Stopping(left: nat) | Closed

  /**
   * Futures are numbered in the order they were accepted.  `taken` counts the
   * accepted items that have left the queue, and `settled` logs each future when
   * it is cancelled or given its outcome.
   */
  datatype State = State(capacity: nat, queue: seq<Item>, futures: seq<Future>, workers: seq<Worker>,
                         closing: Closing, taken: nat, settled: seq<nat>)

  datatype Action =
    | Submit
    | Take(worker: nat)
    | Begin(worker: nat)
    | Finish(worker: nat)
    | Cancel(id: nat)
    | Shutdown(cancelFutures: bool)
    | DrainOne
    | PutStop

  function CancelFuture(s: State, id: nat): State {
    if id < |s.futures| && s.futures[id] == Pending then
      s.(futures := s.futures[id := Cancelled], settled := s.settled + [id])
    else s
  }

  /** One atomic step; a step whose turn it is not leaves the state alone. */
  function Next(s: State, a: Action): State {
    match a
    case Submit =>
      if s.closing == Open && |s.queue| < s.capacity then
        s.(futures := s.futures + [Pending], queue := s.queue + [Work(|s.futures|)])
      else s
    case Take(w) =>
      if w < |s.workers| && s.workers[w] == Idle && s.queue != [] then
        if s.queue[0].Stop? then s.(queue := s.queue[1..], workers := s.workers[w := Exited])
        else s.(queue := s.queue[1..], workers := s.workers[w := Holding(s.queue[0].id)], taken := s.taken + 1)
      else s
    case Begin(w) =>
      if w < |s.workers| && s.workers[w].Holding? && s.workers[w].id < |s.futures| then
        var id := s.workers[w].id;
        if s.futures[id] == Pending then
          s.(futures := s.futures[id := Running], workers := s.workers[w := Busy(id)])
        else s.(workers := s.workers[w := Idle])
      else s
    case Finish(w) =>
      if w < |s.workers| && s.workers[w].Busy? && s.workers[w].id < |s.futures| then
        var id := s.workers[w].id;
        s.(futures := s.futures[id := Done], workers := s.workers[w := Idle], settled := s.settled + [id])
      else s
    case Cancel(id) => CancelFuture(s, id)
    case Shutdown(cancelFutures) =>
      if s.closing == Open then
        s.(closing := if cancelFutures then Draining else Stopping(|s.workers|))
      else s
    case DrainOne =>
      if s.closing != Draining then s
      else if s.queue == [] then s.(closing := Stopping(|s.workers|))
      else if s.queue[0].Stop? then s.(queue := s.queue[1..])
      else CancelFuture(s.(queue := s.queue[1..], taken := s.taken + 1), s.queue[0].id)
    case PutStop =>
      if !s.closing.Stopping? then s
      else if s.closing.left == 0 || |s.queue| >= s.capacity then s.(closing := Closed)
      else s.(queue := s.queue + [Stop], closing := Stopping(s.closing.left - 1))
  }

  /** The queue is the accepted but not yet taken work, oldest first, followed by stop marks. */
  ghost predicate Shape(s: State) {
    && s.taken <= |s.futures| && |s.futures| - s.taken <= |s.queue| <= s.capacity
    && (forall i :: 0 <= i < |s.queue| ==>
          s.queue[i] == if i < |s.futures| - s.taken then Work(s.taken + i) else Stop)
  }

  /** Stop marks, and workers that have seen one, appear only once submission and draining are over. */
  ghost predicate Orderly(s: State) {
    && (s.closing.Open? || s.closing.Draining? ==> |s.queue| == |s.futures| - s.taken && Exited !in s.workers)
    && (Exited in s.workers ==> s.taken == |s.futures|)
  }

  /** Work in hand has been taken; a running future belongs to exactly one worker. */
  ghost predicate InHand(s: State) {
    && s.taken <= |s.futures|
    && (forall w :: 0 <= w < |s.workers| && (s.workers[w].Holding? || s.workers[w].Busy?) ==>
          s.workers[w].id < s.taken)
    && (forall w :: 0 <= w < |s.workers| && s.workers[w].Busy? ==> s.futures[s.workers[w].id] == Running)
    && (forall v, w :: 0 <= v < w < |s.workers|
          && (s.workers[v].Holding? || s.workers[v].Busy?) && (s.workers[w].Holding? || s.workers[w].Busy?)
          ==> s.workers[v].id != s.workers[w].id)
    && (forall i :: s.taken <= i < |s.futures| ==> s.futures[i] in {Pending, Cancelled})
    && (forall w :: 0 <= w < |s.workers| && s.workers[w].Holding? ==>
          s.futures[s.workers[w].id] in {Pending, Cancelled})
  }

  /** Each future is in the log exactly once when it is settled, and not at all before. */
  ghost predicate SettledOnce(s: State) {
    && (forall i, j :: 0 <= i < j < |s.settled| ==> s.settled[i] != s.settled[j])
    && (forall id: nat :: id in s.settled <==> id < |s.futures| && s.futures[id] in {Cancelled, Done})
  }

  ghost predicate Inv(s: State) {
    Shape(s) && Orderly(s) && InHand(s) && SettledOnce(s)
  }

  function Initial(maxWorkers: nat, maxPending: nat): State {
    State(maxPending, [], [], seq(maxWorkers, i => Idle), Open, 0, [])
  }

  lemma InitialInv(maxWorkers: nat, maxPending: nat)
    ensures Inv(Initial(maxWorkers, maxPending))
  {
  }

  lemma CancelInv(s: State, id: nat)
    requires Inv(s)
    ensures Inv(CancelFuture(s, id))
  {
    var t := CancelFuture(s, id);
    if t != s {
      SettleLog(s, t, id);
    }
  }

  lemma SettleLog(s: State, t: State, id: nat)
    requires SettledOnce(s) && id < |s.futures| && s.futures[id] in {Pending, Running}
    requires t.settled == s.settled + [id] && |t.futures| == |s.futures| && t.futures[id] in {Cancelled, Done}
    requires forall i :: 0 <= i < |s.futures| && i != id ==> t.futures[i] == s.futures[i]
    ensures SettledOnce(t)
  {
    assert id !in s.settled;
  }

  lemma TakeInv(s: State, w: nat)
    requires Inv(s)
    ensures Inv(Next(s, Take(w)))
  {
    var t := Next(s, Take(w));
    if t != s {
      assert forall i :: 0 <= i < |t.queue| ==> t.queue[i] == s.queue[i + 1];
      assert forall v :: 0 <= v < |s.workers| && v != w ==> t.workers[v] == s.workers[v];
      assert s.queue[0].Work? && Exited in t.workers ==> Exited in s.workers;
    }
  }

  lemma DrainInv(s: State)
    requires Inv(s)
    ensures Inv(Next(s, DrainOne))
  {
    if s.closing == Draining && s.queue != [] && s.queue[0].Work? {
      var mid := s.(queue := s.queue[1..], taken := s.taken + 1);
      assert forall i :: 0 <= i < |mid.queue| ==> mid.queue[i] == s.queue[i + 1];
      assert Inv(mid);
      CancelInv(mid, s.queue[0].id);
    }
  }

  lemma WorkerInv(s: State, a: Action)
    requires Inv(s) && (a.Begin? || a.Finish?)
    ensures Inv(Next(s, a))
  {
    var t := Next(s, a);
    if t != s {
      var w := a.worker;
      assert forall v :: 0 <= v < |s.workers| && v != w ==> t.workers[v] == s.workers[v];
      assert Exited in t.workers ==> Exited in s.workers by {
        if Exited in t.workers {
          var v :| 0 <= v < |t.workers| && t.workers[v] == Exited;
          assert s.workers[v] == Exited;
        }
      }
      if a.Finish? {
        SettleLog(s, t, s.workers[w].id);
      }
    }
  }

  lemma StepInv(s: State, a: Action)
    requires Inv(s)
    ensures Inv(Next(s, a))
  {
    match a
    case Submit =>
    case Take(w) => TakeInv(s, w);
    case Begin(_) => WorkerInv(s, a);
    case Finish(_) => WorkerInv(s, a);
    case Cancel(id) => CancelInv(s, id);
    case Shutdown(_) =>
    case DrainOne => DrainInv(s);
    case PutStop =>
  }

  function Run(s: State, acts: seq<Action>): State
    decreases |acts|
  {
    if acts == [] then s else Run(Next(s, acts[0]), acts[1..])
  }

  lemma {:induction false} RunInv(s: State, acts: seq<Action>)
    requires Inv(s)
    ensures Inv(Run(s, acts))
    decreases |acts|
  {
    if acts != [] {
      StepInv(s, acts[0]);
      hide Inv, Next;
      RunInv(Next(s, acts[0]), acts[1..]);
    }
  }

  /**
   * In every interleaving: the queue is the untaken work in order of acceptance
   * followed by stop marks, it never exceeds its bound, no worker returns before
   * all accepted work has been taken, and no future is settled twice.
   */
  lemma EveryInterleaving(maxWorkers: nat, maxPending: nat, acts: seq<Action>)
    ensures var s := Run(Initial(maxWorkers, maxPending), acts);
      && Shape(s) && SettledOnce(s)
      && (Exited in s.workers ==> s.taken == |s.futures|)
  {
    InitialInv(maxWorkers, maxPending);
    hide Initial;
    RunInv(Initial(maxWorkers, maxPending), acts);
  }

  lemma {:induction false} RunSnoc(s: State, acts: seq<Action>, a: Action)
    ensures Run(s, acts + [a]) == Next(Run(s, acts), a)
    decreases |acts|
  {
    if acts == [] {
      assert [a][1..] == [] && [] + [a] == [a];
    } else {
      assert (acts + [a])[0] == acts[0] && (acts + [a])[1..] == acts[1..] + [a];
      RunSnoc(Next(s, acts[0]), acts[1..], a);
    }
  }

  // ---------------------------------------------------------------- no accepted work is lost

  ghost predicate InSomeHand(s: State, id: nat) {
    exists w :: 0 <= w < |s.workers| && (s.workers[w] == Holding(id) || s.workers[w] == Busy(id))
  }

  /** Work that has left the queue and is not settled is in some worker's hands. */
  ghost predicate Accounted(s: State) {
    forall id: nat :: id < s.taken <= |s.futures| && s.futures[id] in {Pending, Running} ==> InSomeHand(s, id)
  }

  lemma HandKept(s: State, t: State, w: nat, id: nat)
    requires InSomeHand(s, id) && |t.workers| == |s.workers|
    requires forall v :: 0 <= v < |s.workers| && v != w ==> t.workers[v] == s.workers[v]
    requires w < |s.workers| && s.workers[w] != Holding(id) && s.workers[w] != Busy(id)
    ensures InSomeHand(t, id)
  {
    var v :| 0 <= v < |s.workers| && (s.workers[v] == Holding(id) || s.workers[v] == Busy(id));
    assert t.workers[v] == s.workers[v];
  }

  lemma AccountedStep(s: State, a: Action)
    requires Inv(s) && Accounted(s)
    ensures Accounted(Next(s, a))
  {
    var t := Next(s, a);
    hide SettledOnce, Orderly;
    forall id: nat | id < t.taken <= |t.futures| && t.futures[id] in {Pending, Running} ensures InSomeHand(t, id) {
      if (a.Take? || a.Begin? || a.Finish?) && t != s {
        var w := a.worker;
        if t.workers[w] != Holding(id) && t.workers[w] != Busy(id) {
          assert InSomeHand(s, id);
          HandKept(s, t, w, id);
        }
      } else {
        assert t.workers == s.workers;
        assert InSomeHand(s, id);
      }
    }
  }

  lemma {:induction false} RunAccounted(s: State, acts: seq<Action>)
    requires Inv(s) && Accounted(s)
    ensures Accounted(Run(s, acts))
    decreases |acts|
  {
    if acts != [] {
      StepInv(s, acts[0]);
      AccountedStep(s, acts[0]);
      hide Inv, Accounted, Next;
      RunAccounted(Next(s, acts[0]), acts[1..]);
    }
  }

  /**
   * In every interleaving each accepted future is still queued, in a worker's
   * hands or settled; so once every worker has returned, every future is settled.
   */
  lemma NothingLost(maxWorkers: nat, maxPending: nat, acts: seq<Action>)
    ensures var s := Run(Initial(maxWorkers, maxPending), acts);
      && (forall id: nat :: id < |s.futures| ==> Work(id) in s.queue || InSomeHand(s, id) || id in s.settled)
      && ((forall w :: 0 <= w < |s.workers| ==> s.workers[w] == Exited) && |s.workers| > 0 ==>
            forall id: nat :: id < |s.futures| ==> id in s.settled)
  {
    InitialInv(maxWorkers, maxPending);
    RunInv(Initial(maxWorkers, maxPending), acts);
    RunAccounted(Initial(maxWorkers, maxPending), acts);
    var s := Run(Initial(maxWorkers, maxPending), acts);
    hide Run, Initial, InSomeHand;
    forall id: nat | id < |s.futures| ensures Work(id) in s.queue || InSomeHand(s, id) || id in s.settled {
      if id >= s.taken {
        assert s.queue[id - s.taken] == Work(id);
      } else if s.futures[id] == Pending || s.futures[id] == Running {
        assert id < s.taken <= |s.futures|;
        assert InSomeHand(s, id);
      } else {
        assert s.futures[id] in {Cancelled, Done};
      }
    }
    if |s.workers| > 0 && forall w :: 0 <= w < |s.workers| ==> s.workers[w] == Exited {
      assert s.workers[0] in s.workers;
      assert forall i :: 0 <= i < |s.queue| ==> s.queue[i] == Stop;
    }
  }

  // ---------------------------------------------------------------- what each step does

  /** The steps agree outside the named fields and worker. */
  ghost predicate OnlyWorker(s: State, t: State, w: nat, x: Worker) {
    && w < |s.workers| == |t.workers| && t.workers[w] == x
    && forall v :: 0 <= v < |s.workers| && v != w ==> t.workers[v] == s.workers[v]
  }

  ghost predicate OnlyFuture(s: State, t: State, id: nat, f: Future) {
    && id < |s.futures| == |t.futures| && t.futures[id] == f
    && forall i :: 0 <= i < |s.futures| && i != id ==> t.futures[i] == s.futures[i]
  }

  /** `submit` accepts exactly while the executor is open and the queue has room; otherwise it changes nothing. */
  lemma SubmitExact(s: State)
    ensures var t := Next(s, Submit);
      if s.closing.Open? && |s.queue| < s.capacity then
        && t.futures == s.futures + [Pending] && t.queue == s.queue + [Work(|s.futures|)]
        && t == s.(futures := t.futures, queue := t.queue)
      else t == s
  {
  }

  /** An idle worker takes the oldest item; work goes into its hands and a stop mark ends it. */
  lemma TakeExact(s: State, w: nat)
    ensures var t := Next(s, Take(w));
      if w < |s.workers| && s.workers[w].Idle? && s.queue != [] then
        && s.queue == [s.queue[0]] + t.queue
        && (s.queue[0].Work? ==> OnlyWorker(s, t, w, Holding(s.queue[0].id)) && t.taken == s.taken + 1)
        && (s.queue[0].Stop? ==> OnlyWorker(s, t, w, Exited) && t.taken == s.taken)
        && t.futures == s.futures && t.settled == s.settled && t.closing == s.closing && t.capacity == s.capacity
      else t == s
  {
  }

  /** A worker runs the work in its hands when it is still pending, and drops it when it was cancelled. */
  lemma BeginExact(s: State, w: nat)
    requires Inv(s)
    ensures var t := Next(s, Begin(w));
      if w < |s.workers| && s.workers[w].Holding? then
        var id := s.workers[w].id;
        && (s.futures[id].Pending? ==> OnlyWorker(s, t, w, Busy(id)) && OnlyFuture(s, t, id, Running))
        && (s.futures[id].Cancelled? ==> OnlyWorker(s, t, w, Idle) && t.futures == s.futures)
        && s.futures[id] in {Pending, Cancelled}
        && t == s.(workers := t.workers, futures := t.futures)
      else t == s
  {
  }

  /** A worker that ran its work settles the future and is idle again. */
  lemma FinishExact(s: State, w: nat)
    requires Inv(s)
    ensures var t := Next(s, Finish(w));
      if w < |s.workers| && s.workers[w].Busy? then
        var id := s.workers[w].id;
        && s.futures[id] == Running && OnlyWorker(s, t, w, Idle) && OnlyFuture(s, t, id, Done)
        && t.settled == s.settled + [id]
        && t == s.(workers := t.workers, futures := t.futures, settled := t.settled)
      else t == s
  {
  }

  /** `Future.cancel` works exactly on a pending future. */
  lemma CancelExact(s: State, id: nat)
    ensures var t := Next(s, Cancel(id));
      if id < |s.futures| && s.futures[id].Pending? then
        && OnlyFuture(s, t, id, Cancelled) && t.settled == s.settled + [id]
        && t == s.(futures := t.futures, settled := t.settled)
      else t == s
  {
  }

  /** One turn of the draining loop takes the oldest work and cancels it, and the loop ends on an empty queue. */
  lemma DrainExact(s: State)
    requires Inv(s) && s.closing == Draining
    ensures var t := Next(s, DrainOne);
      if s.queue == [] then t == s.(closing := Stopping(|s.workers|))
      else
        && s.taken < |s.futures| && OnlyFuture(s, t, s.taken, Cancelled) && s.queue == [Work(s.taken)] + t.queue
        && t.settled == (if s.futures[s.taken].Pending? then s.settled + [s.taken] else s.settled)
        && t == s.(futures := t.futures, settled := t.settled, queue := t.queue, taken := s.taken + 1)
  {
    hide SettledOnce;
    if s.queue != [] {
      assert s.queue[0] == Work(s.taken);
    }
  }

  /** Only the first `shutdown` counts; a cancelling one drains the queue before it posts stop marks. */
  lemma ShutdownExact(s: State, cancelFutures: bool)
    ensures var t := Next(s, Shutdown(cancelFutures));
      && t == s.(closing := t.closing)
      && (s.closing != Open ==> t == s)
      && (s.closing == Open ==> if cancelFutures then t.closing == Draining else t.closing == Stopping(|s.workers|))
  {
  }

  /** A stop mark is posted while one is owed and the queue has room; otherwise posting ends. */
  lemma PutStopExact(s: State)
    requires s.closing.Stopping?
    ensures var t := Next(s, PutStop);
      && t == s.(closing := t.closing, queue := t.queue)
      && if s.closing.left > 0 && |s.queue| < s.capacity then
           t.queue == s.queue + [Stop] && t.closing == Stopping(s.closing.left - 1)
         else t.queue == s.queue && t.closing == Closed
  {
  }

  // ---------------------------------------------------------------- accepted work is done

  /** The pending futures from a position on, in order. */
  function PendingFrom(fs: seq<Future>, k: nat): seq<nat>
    decreases |fs| - k
  {
    if k >= |fs| then [] else (if fs[k].Pending? then [k] else []) + PendingFrom(fs, k + 1)
  }

  /** From `s` to `t` the futures from a position on were settled, the cancelled ones left as they were. */
  ghost predicate SettledFrom(s: State, t: State, k: nat, f: Future) {
    && |t.futures| == |s.futures|
    && (forall i :: 0 <= i < k && i < |s.futures| ==> t.futures[i] == s.futures[i])
    && (forall i :: k <= i < |s.futures| ==> t.futures[i] == if s.futures[i].Cancelled? then Cancelled else f)
    && t.settled == s.settled + PendingFrom(s.futures, k)
  }

  /** One worker's turns: take, begin and finish, so many times. */
  function Rounds(w: nat, n: nat): seq<Action> {
    if n == 0 then [] else [Take(w), Begin(w), Finish(w)] + Rounds(w, n - 1)
  }

  lemma RunConcat(s: State, a: seq<Action>, b: seq<Action>)
    ensures Run(s, a + b) == Run(Run(s, a), b)
    decreases |a|
  {
    if a == [] {
      assert [] + b == b;
    } else {
      assert (a + b)[0] == a[0] && (a + b)[1..] == a[1..] + b;
      RunConcat(Next(s, a[0]), a[1..], b);
    }
  }

  lemma RunThree(s: State, a: Action, b: Action, c: Action)
    ensures Run(s, [a, b, c]) == Next(Next(Next(s, a), b), c)
  {
    hide Next;
    assert [a, b, c][1..] == [b, c] && [b, c][1..] == [c] && [c][1..] == [];
    assert Run(Next(Next(s, a), b), [c]) == Run(Next(Next(Next(s, a), b), c), []);
    assert Run(Next(s, a), [b, c]) == Run(Next(Next(s, a), b), [c]);
  }

  /** One turn of an idle worker settles the oldest accepted work. */
  lemma OneRound(s: State, w: nat)
    requires Inv(s) && w < |s.workers| && s.workers[w] == Idle && s.taken < |s.futures|
    ensures var t := Run(s, [Take(w), Begin(w), Finish(w)]);
      var k := s.taken;
      && Inv(t) && t.workers == s.workers && t.taken == k + 1 && s.queue == [Work(k)] + t.queue
      && s.futures[k] in {Pending, Cancelled}
      && t.futures == s.futures[k := if s.futures[k].Cancelled? then Cancelled else Done]
      && t.settled == s.settled + if s.futures[k].Pending? then [k] else []
  {
    hide Next, Run, Inv;
    RunThree(s, Take(w), Begin(w), Finish(w));
    var a := Next(s, Take(w));
    var b := Next(a, Begin(w));
    StepInv(s, Take(w));
    StepInv(a, Begin(w));
    StepInv(b, Finish(w));
    OldestWork(s);
    TakeExact(s, w);
    BeginExact(a, w);
    FinishExact(b, w);
    assert Next(b, Finish(w)).workers == s.workers;
  }

  lemma OldestWork(s: State)
    requires Inv(s) && s.taken < |s.futures|
    ensures s.queue != [] && s.queue[0] == Work(s.taken) && s.futures[s.taken] in {Pending, Cancelled}
  {
    hide SettledOnce, Orderly;
  }

  lemma SettledCons(s: State, m: State, t: State, k: nat, f: Future)
    requires k < |s.futures| && s.futures[k] in {Pending, Cancelled}
    requires m.futures == s.futures[k := if s.futures[k].Cancelled? then Cancelled else f]
    requires m.settled == s.settled + if s.futures[k].Pending? then [k] else []
    requires SettledFrom(m, t, k + 1, f)
    ensures SettledFrom(s, t, k, f)
  {
    PendingFrame(s.futures, m.futures, k + 1);
    var rest := PendingFrom(s.futures, k + 1);
    assert s.settled + ([k] + rest) == s.settled + [k] + rest;
    assert s.settled + ([] + rest) == s.settled + [] + rest;
    hide PendingFrom;
    forall i | k <= i < |s.futures| ensures t.futures[i] == if s.futures[i].Cancelled? then Cancelled else f {
      assert i > k ==> m.futures[i] == s.futures[i];
    }
  }

  /**
   * One worker suffices: from any state that satisfies the invariant its turns
   * settle all queued work, oldest first, each future done unless it was cancelled.
   */
  lemma {:induction false} OneWorkerSuffices(s: State, w: nat, n: nat)
    requires Inv(s) && w < |s.workers| && s.workers[w] == Idle && n == |s.futures| - s.taken
    ensures var t := Run(s, Rounds(w, n));
      Inv(t) && t.taken == |t.futures| && t.workers == s.workers && SettledFrom(s, t, s.taken, Done)
    decreases n
  {
    if n > 0 {
      hide Inv, Run, SettledFrom;
      OneRound(s, w);
      RunConcat(s, [Take(w), Begin(w), Finish(w)], Rounds(w, n - 1));
      var m := Run(s, [Take(w), Begin(w), Finish(w)]);
      OneWorkerSuffices(m, w, n - 1);
      SettledCons(s, m, Run(m, Rounds(w, n - 1)), s.taken, Done);
    } else {
      assert s.settled + [] == s.settled;
    }
  }

  function Drains(n: nat): seq<Action> {
    seq(n, i => DrainOne)
  }

  /** A cancelling shutdown settles all queued work as cancelled and empties the queue. */
  lemma {:induction false} DrainingCancels(s: State, n: nat)
    requires Inv(s) && s.closing == Draining && n == |s.queue|
    ensures var t := Run(s, Drains(n + 1));
      && Inv(t) && t.closing == Stopping(|s.workers|) && t.queue == [] && t.taken == |t.futures|
      && t.workers == s.workers && SettledFrom(s, t, s.taken, Cancelled)
    decreases n
  {
    hide Next, Run, Inv, SettledFrom;
    DrainExact(s);
    StepInv(s, DrainOne);
    var m := Next(s, DrainOne);
    DrainsFirst(s, n);
    if n > 0 {
      DrainingCancels(m, n - 1);
      OldestWork(s);
      assert m.futures == s.futures[s.taken := Cancelled];
      SettledCons(s, m, Run(m, Drains(n)), s.taken, Cancelled);
    } else {
      AllTaken(s, m);
    }
  }

  lemma DrainsFirst(s: State, n: nat)
    ensures Run(s, Drains(n + 1)) == Run(Next(s, DrainOne), Drains(n))
    ensures n == 0 ==> Run(Next(s, DrainOne), Drains(n)) == Next(s, DrainOne)
  {
    hide Next;
    assert Drains(n + 1)[0] == DrainOne && Drains(n + 1)[1..] == Drains(n);
  }

  lemma AllTaken(s: State, m: State)
    requires Inv(s) && s.closing == Draining && s.queue == [] && m == s.(closing := Stopping(|s.workers|))
    ensures m.taken == |m.futures| && SettledFrom(s, m, s.taken, Cancelled)
  {
    hide SettledOnce, InHand;
    assert s.settled + [] == s.settled;
  }

  lemma {:induction false} PendingFrame(fs: seq<Future>, gs: seq<Future>, k: nat)
    requires |fs| == |gs| && forall i :: k <= i < |fs| ==> fs[i] == gs[i]
    ensures PendingFrom(fs, k) == PendingFrom(gs, k)
    decreases |fs| - k
  {
    if k < |fs| {
      PendingFrame(fs, gs, k + 1);
    }
  }

  lemma Drained(s: State, first: State, last: State, turns: nat)
    requires first == s.(closing := Draining) && s.closing == Open && turns == |s.queue| + 1
    requires last == Run(first, Drains(turns))
    ensures Inv(s) ==> last.taken == |last.futures| && SettledFrom(s, last, s.taken, Cancelled)
  {
    if Inv(s) {
      StepInv(s, Shutdown(true));
      assert Next(s, Shutdown(true)) == first;
      hide Run, Inv, Next;
      DrainingCancels(first, |s.queue|);
    }
  }

  lemma ShutdownRun(s: State, first: State, drained: State, last: State, cancelFutures: bool, turns: nat, posts: nat)
    requires first == Next(s, Shutdown(cancelFutures))
    requires drained == Run(first, Drains(turns)) || (turns == 0 && drained == first)
    requires last == Run(drained, Posts(posts))
    ensures last == Run(s, [Shutdown(cancelFutures)] + Drains(turns) + Posts(posts))
  {
    hide Next;
    assert Run(first, []) == first && Drains(0) == [];
    RunConcat(s, [Shutdown(cancelFutures)], Drains(turns));
    RunConcat(s, [Shutdown(cancelFutures)] + Drains(turns), Posts(posts));
  }

  lemma SettledFrame(s: State, t: State, u: State, k: nat)
    requires u.futures == t.futures && u.settled == t.settled
    ensures SettledFrom(s, t, k, Cancelled) <==> SettledFrom(s, u, k, Cancelled)
  {
  }

  function Posts(n: nat): seq<Action> {
    seq(n, i => PutStop)
  }

  function Marks(n: nat): seq<Item> {
    seq(n, i => Stop)
  }

  /** The executor's fields; each method is what one thread does between two scheduling points. */
  class BoundedDaemonExecutor {
    const capacity: nat
    var queue: seq<Item>
    var futures: seq<Future>
    var workers: seq<Worker>
    var closing: Closing
    ghost var taken: nat
    ghost var settled: seq<nat>

    ghost function View(): State
      reads this
    {
      State(capacity, queue, futures, workers, closing, taken, settled)
    }

    constructor (maxWorkers: nat, maxPending: nat)
      requires maxWorkers >= 1 && maxPending >= 1
      ensures View() == Initial(maxWorkers, maxPending)
    {
      capacity, queue, futures, closing := maxPending, [], [], Open;
      workers := seq(maxWorkers, i => Idle);
      taken, settled := 0, [];
    }

    /** `submit`, under the lock; false when it raises. */
    method SubmitWork() returns (accepted: bool)
      modifies this
      ensures View() == Next(old(View()), Submit)
      ensures accepted <==> old(closing) == Open && old(|queue|) < capacity
      ensures if accepted then queue == old(queue) + [Work(old(|futures|))] && futures == old(futures) + [Pending]
              else queue == old(queue) && futures == old(futures)
    {
      accepted := closing == Open && |queue| < capacity;
      if accepted {
        queue := queue + [Work(|futures|)];
        futures := futures + [Pending];
      }
    }

    /** `queue.get()` in `_worker`. */
    method TakeItem(w: nat)
      modifies this
      ensures View() == Next(old(View()), Take(w))
    {
      if w < |workers| && workers[w] == Idle && queue != [] {
        var item := queue[0];
        queue := queue[1..];
        if item.Stop? {
          workers := workers[w := Exited];
        } else {
          workers := workers[w := Holding(item.id)];
          taken := taken + 1;
        }
      }
    }

    /** `set_running_or_notify_cancel`. */
    method BeginItem(w: nat)
      modifies this
      ensures View() == Next(old(View()), Begin(w))
    {
      if w < |workers| && workers[w].Holding? && workers[w].id < |futures| {
        var id := workers[w].id;
        if futures[id] == Pending {
          futures := futures[id := Running];
          workers := workers[w := Busy(id)];
        } else {
          workers := workers[w := Idle];
        }
      }
    }

    /** `set_result` or `set_exception`. */
    method FinishItem(w: nat)
      modifies this
      ensures View() == Next(old(View()), Finish(w))
    {
      if w < |workers| && workers[w].Busy? && workers[w].id < |futures| {
        var id := workers[w].id;
        futures := futures[id := Done];
        workers := workers[w := Idle];
        settled := settled + [id];
      }
    }

    method CancelWork(id: nat)
      modifies this
      ensures View() == Next(old(View()), Cancel(id))
    {
      if id < |futures| && futures[id] == Pending {
        futures := futures[id := Cancelled];
        settled := settled + [id];
      }
    }

    /** One turn of the draining loop; false when the queue was empty. */
    method Drain() returns (more: bool)
      requires closing == Draining
      modifies this
      ensures View() == Next(old(View()), DrainOne)
      ensures more <==> old(queue) != []
      ensures more ==> closing == Draining && queue == old(queue)[1..]
      ensures !more ==> closing == Stopping(|workers|) && queue == []
      ensures workers == old(workers)
    {
      more := queue != [];
      if !more {
        closing := Stopping(|workers|);
        return;
      }
      var item := queue[0];
      queue := queue[1..];
      if item.Work? {
        taken := taken + 1;
        if item.id < |futures| && futures[item.id] == Pending {
          futures := futures[item.id := Cancelled];
          settled := settled + [item.id];
        }
      }
    }

    /** One turn of the loop that posts a stop mark for each worker; false when it ends. */
    method PostStop() returns (more: bool)
      requires closing.Stopping?
      modifies this
      ensures View() == Next(old(View()), PutStop)
      ensures more ==> queue == old(queue) + [Stop] && closing == Stopping(old(closing).left - 1)
      ensures !more ==> queue == old(queue) && closing == Closed && (old(closing).left == 0 || |queue| >= capacity)
      ensures more ==> old(closing).left > 0 && |queue| <= capacity
      ensures workers == old(workers) && futures == old(futures) && settled == old(settled) && taken == old(taken)
    {
      more := closing.left > 0 && |queue| < capacity;
      if more {
        queue := queue + [Stop];
        closing := Stopping(closing.left - 1);
      } else {
        closing := Closed;
      }
    }

    /** The draining loop of `shutdown`. */
    method DrainAll() returns (ghost turns: nat)
      requires closing == Draining
      modifies this
      ensures turns == |old(queue)| + 1 && View() == Run(old(View()), Drains(turns))
      ensures closing == Stopping(|workers|) && queue == [] && workers == old(workers)
    {
      ghost var s := View();
      assert Run(s, []) == s;
      hide Next, Run;
      turns := 0;
      var more := true;
      assert Drains(0) == [];
      while more
        invariant View() == Run(s, Drains(turns)) && workers == s.workers
        invariant if more then closing == Draining else closing == Stopping(|workers|) && queue == []
        invariant turns == |s.queue| - |queue| + if more then 0 else 1
        decreases more, |queue|
      {
        RunSnoc(s, Drains(turns), DrainOne);
        more := Drain();
        assert Drains(turns) + [DrainOne] == Drains(turns + 1);
        turns := turns + 1;
      }
    }

    /** The loop of `shutdown` that posts stop marks until each worker has one or the queue is full. */
    method PostStops() returns (ghost turns: nat)
      requires closing == Stopping(|workers|)
      modifies this
      ensures View() == Run(old(View()), Posts(turns))
      ensures closing == Closed && workers == old(workers)
      ensures futures == old(futures) && settled == old(settled) && taken == old(taken)
      ensures |old(queue)| <= capacity ==>
        queue == old(queue) + Marks(Min(|workers|, capacity - |old(queue)|))
    {
      ghost var s := View();
      assert Run(s, []) == s;
      hide Next, Run;
      turns := 0;
      var more := true;
      ghost var n := 0;
      assert Posts(0) == [] && queue + Marks(0) == queue;
      while more
        invariant View() == Run(s, Posts(turns)) && workers == s.workers
        invariant futures == s.futures && settled == s.settled && taken == s.taken
        invariant n <= |workers| && queue == s.queue + Marks(n)
        invariant |s.queue| <= capacity ==> |queue| <= capacity
        invariant if more then closing == Stopping(|workers| - n)
                  else closing == Closed && (n == |workers| || |queue| >= capacity)
        decreases more, if more then closing.left else 0
      {
        RunSnoc(s, Posts(turns), PutStop);
        more := PostStop();
        assert Posts(turns) + [PutStop] == Posts(turns + 1);
        turns := turns + 1;
        if more {
          assert Marks(n) + [Stop] == Marks(n + 1);
          n := n + 1;
        }
      }
    }

    /** `shutdown` with no other thread in between: its loops are a sequence of the atomic steps. */
    method ShutDown(cancelFutures: bool) returns (ghost acts: seq<Action>)
      modifies this
      ensures View() == Run(old(View()), acts)
      ensures old(closing) == Open ==> closing == Closed
      ensures old(closing) == Open && |old(queue)| <= capacity ==>
        var work := if cancelFutures then [] else old(queue);
        queue == work + Marks(Min(|workers|, capacity - |work|))
      ensures old(closing) == Open && cancelFutures && Inv(old(View())) ==>
        taken == |futures| && SettledFrom(old(View()), View(), old(taken), Cancelled)
      ensures old(closing) != Open ==> View() == old(View())
    {
      hide Inv, SettledFrom;
      ghost var s := View();
      acts := [];
      if closing != Open {
        return;
      }
      closing := if cancelFutures then Draining else Stopping(|workers|);
      ghost var first := View();
      ghost var turns := 0;
      assert first == Next(s, Shutdown(cancelFutures));
      hide Next, Run;
      if cancelFutures {
        turns := DrainAll();
        Drained(s, first, View(), turns);
      }
      ghost var drained := View();
      ghost var posts := PostStops();
      acts := [Shutdown(cancelFutures)] + Drains(turns) + Posts(posts);
      ShutdownRun(s, first, drained, View(), cancelFutures, turns, posts);
      SettledFrame(s, drained, View(), s.taken);
    }
  }
}
