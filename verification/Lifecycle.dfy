/**
 * The plugin registry of `ReticulumPiApp`: startup, hot enable and disable,
 * readiness loss and shutdown, as transitions of an ordered registry.
 */
module Lifecycle {
  import opened Names
  import opened DependencyGraph
  import opened StartOrder

  datatype PluginState = Discovered | Blocked | Starting | Ready | Stopping | Stopped | Failed | Hung

  /** A plugin instance: its lifecycle state and what its class declares. */
  datatype Plugin = Plugin(state: PluginState, hard: seq<Name>, soft: seq<Name>, validMetadata: bool)

  function MarkBlocked(s: PluginState): PluginState {
    if s == Discovered || s == Blocked then Blocked else s
  }

  function RequestStop(s: PluginState): PluginState {
    if s == Failed || s == Hung then s else Stopping
  }

  /** How a call of `stop()` under its deadline ends. */
  datatype StopResult = StopClean | StopRaises | StopHangs

  /** How migrating and starting an instance ends. */
  datatype Attempt =
    | MigrationFails
    | Started
    | StartedNotReady(left: PluginState)
    | StartHung
    | StartFailed(stop: StopResult)
  {
    ghost predicate Valid() {
      StartedNotReady? ==> left != Ready
    }
  }

  /** An insertion-ordered dictionary from names to instances. */
  datatype Registry = Registry(order: seq<Name>, plugins: map<Name, Plugin>) {
    ghost predicate Valid() {
      Distinct(order) && Elements(order) == plugins.Keys
    }

    predicate IsReady(name: Name) {
      name in plugins && plugins[name].state == Ready
    }

    function SetState(name: Name, s: PluginState): Registry
      requires name in plugins
    {
      this.(plugins := plugins[name := plugins[name].(state := s)])
    }

    function Remove(name: Name): Registry {
      Registry(Keep(order, Elements(order) - {name}), plugins - {name})
    }

    function Append(name: Name, plugin: Plugin): Registry {
      Registry(order + [name], plugins[name := plugin])
    }

    /** `_hard_dependency_problem` is not None. */
    predicate HardProblem(plugin: Plugin) {
      exists d :: d in plugin.hard && !IsReady(d)
    }
  }

  /** The hard edges of the ready plugins. */
  ghost function ReadyGraph(r: Registry): Graph {
    map q | q in r.plugins && r.plugins[q].state == Ready :: r.plugins[q].hard
  }

  // ---------------------------------------------------------------- the invariant

  /** Every ready plugin's hard dependencies are registered, ready and earlier in `rank`. */
  ghost predicate Supported(r: Registry, rank: seq<Name>) {
    forall q, d :: r.IsReady(q) && d in r.plugins[q].hard ==> r.IsReady(d) && Before(rank, d, q)
  }

  // ---------------------------------------------------------------- readiness loss

  /** The ready plugins with a hard path, through ready plugins, to the lost provider. */
  ghost function Dependents(r: Registry, lost: Name): set<Name> {
    set q | q in r.plugins && r.IsReady(q) && q != lost && Reach(ReadyGraph(r), q, lost)
  }

  function BlockAll(r: Registry, names: set<Name>): Registry {
    r.(plugins := map q | q in r.plugins ::
         if q in names then r.plugins[q].(state := Blocked) else r.plugins[q])
  }

  /** A ready plugin leaves READY for `s` and its dependents are blocked. */
  ghost function LoseReady(r: Registry, lost: Name, s: PluginState): Registry
    requires lost in r.plugins
  {
    BlockAll(r.SetState(lost, s), Dependents(r.SetState(lost, s), lost))
  }

  /** The hard edges of every registered plugin. */
  ghost function HardGraph(r: Registry): Graph {
    map q | q in r.plugins :: r.plugins[q].hard
  }

  /** With the invariant, the blocked set is simply every ready plugin with a hard path to the loss. */
  lemma DependentsExact(r: Registry, rank: seq<Name>, lost: Name, s: PluginState, q: Name)
    requires Supported(r, rank) && r.IsReady(lost) && s != Ready && r.IsReady(q) && q != lost
    ensures q in Dependents(r.SetState(lost, s), lost) <==> Reach(HardGraph(r), q, lost)
  {
    var t := r.SetState(lost, s);
    if Reach(ReadyGraph(t), q, lost) {
      forall a, b | Edge(ReadyGraph(t), a, b) ensures Edge(HardGraph(r), a, b) {
      }
      ReachMonotone(ReadyGraph(t), HardGraph(r), q, lost);
    } else if Reach(HardGraph(r), q, lost) {
      var p :| IsPath(HardGraph(r), p, q, lost);
      ReadyPath(r, rank, lost, s, p, q);
    }
  }

  lemma {:induction false} ReadyPath(r: Registry, rank: seq<Name>, lost: Name, s: PluginState, p: seq<Name>, q: Name)
    requires Supported(r, rank) && r.IsReady(lost) && s != Ready && r.IsReady(q)
    requires IsPath(HardGraph(r), p, q, lost)
    ensures Reach(ReadyGraph(r.SetState(lost, s)), q, lost)
    decreases |p|
  {
    var g := ReadyGraph(r.SetState(lost, s));
    if q == lost {
      ReachSelf(g, q);
    } else {
      assert Edge(HardGraph(r), p[0], p[1]);
      assert IsPath(HardGraph(r), p[1..], p[1], lost);
      ReadyPath(r, rank, lost, s, p[1..], p[1]);
      assert Edge(g, q, p[1]);
      ReachEdge(g, q, p[1]);
      ReachTransitive(g, q, p[1], lost);
    }
  }

  /**
   * A readiness loss in full: the provider is in the state it left for, exactly
   * the ready plugins with a hard path to it are blocked, and nothing else changes.
   */
  lemma LoseReadyExact(r: Registry, rank: seq<Name>, lost: Name, s: PluginState, q: Name)
    requires Supported(r, rank) && r.IsReady(lost) && s != Ready && q in r.plugins
    ensures var t := LoseReady(r, lost, s);
      && t.order == r.order && t.plugins.Keys == r.plugins.Keys
      && t.plugins[q] ==
         if q == lost then r.plugins[q].(state := s)
         else if r.plugins[q].state == Ready && Reach(HardGraph(r), q, lost) then r.plugins[q].(state := Blocked)
         else r.plugins[q]
  {
    hide Reach;
    if q != lost && r.IsReady(q) {
      DependentsExact(r, rank, lost, s, q);
    }
  }

  /** Readiness loss re-establishes the invariant. */
  lemma LoseReadyKeeps(r: Registry, rank: seq<Name>, lost: Name, s: PluginState)
    requires Supported(r, rank) && lost in r.plugins && s != Ready
    ensures Supported(LoseReady(r, lost, s), rank)
  {
    var t := r.SetState(lost, s);
    var g := ReadyGraph(t);
    var after := LoseReady(r, lost, s);
    forall q, d | after.IsReady(q) && d in after.plugins[q].hard
      ensures after.IsReady(d) && Before(rank, d, q)
    {
      assert r.IsReady(q) && r.IsReady(d);
      assert Edge(g, q, d);
      ReachEdge(g, q, d);
      if d != lost && Reach(g, d, lost) {
        ReachTransitive(g, q, d, lost);
      }
    }
  }

  // ---------------------------------------------------------------- startup

  /** One turn of the startup loop; `deadline` says the global budget is used up. */
  function StartOne(r: Registry, name: Name, deadline: bool, a: Attempt): Registry
    requires name in r.plugins
  {
    var plugin := r.plugins[name];
    if plugin.state == Blocked then r
    else if r.HardProblem(plugin) || a.MigrationFails? || deadline then
      r.SetState(name, MarkBlocked(plugin.state))
    else match a
      case Started => r.SetState(name, Ready)
      case StartedNotReady(left) => r.SetState(name, left)
      case StartHung => r.SetState(name, Hung)
      case StartFailed(stop) => if stop == StopHangs then r.SetState(name, Hung) else r.Remove(name)
      case MigrationFails => r
  }

  /** `t` is `r` with one plugin in another state. */
  ghost predicate OnlyState(r: Registry, t: Registry, name: Name, s: PluginState) {
    && t.order == r.order && t.plugins.Keys == r.plugins.Keys && name in r.plugins
    && t.plugins[name] == r.plugins[name].(state := s)
    && forall q :: q in r.plugins && q != name ==> t.plugins[q] == r.plugins[q]
  }

  /** `t` is `r` without one plugin, the others in the same order. */
  ghost predicate OnlyWithout(r: Registry, t: Registry, name: Name) {
    && t.plugins.Keys == r.plugins.Keys - {name} && name !in t.order
    && (forall q :: q in t.plugins ==> t.plugins[q] == r.plugins[q])
    && (forall q :: q in t.order <==> q in r.order && q != name)
    && forall v, u :: v != name && u != name && Before(r.order, v, u) ==> Before(t.order, v, u)
  }

  lemma {:induction false} KeepBefore(s: seq<Name>, allowed: set<Name>, v: Name, u: Name)
    requires Before(s, v, u) && u in allowed && v in allowed
    ensures Before(Keep(s, allowed), v, u)
  {
    var k :| 0 <= k < |s| && s[k] == u && v in s[..k];
    var rest := Keep(s[1..], allowed);
    assert s[1..][k - 1] == u;
    if s[0] == v {
      assert u in rest;
      HeadBefore(v, rest, u);
    } else {
      assert s[..k] == [s[0]] + s[1..][..k - 1];
      KeepBefore(s[1..], allowed, v, u);
      ConsBefore(s[0], rest, v, u);
    }
  }

  lemma HeadBefore(v: Name, rest: seq<Name>, u: Name)
    requires u in rest
    ensures Before([v] + rest, v, u)
  {
    var i :| 0 <= i < |rest| && rest[i] == u;
    assert ([v] + rest)[i + 1] == u && ([v] + rest)[..i + 1][0] == v;
  }

  lemma ConsBefore(x: Name, rest: seq<Name>, v: Name, u: Name)
    requires Before(rest, v, u)
    ensures Before([x] + rest, v, u)
  {
    var i :| 0 <= i < |rest| && rest[i] == u && v in rest[..i];
    assert ([x] + rest)[i + 1] == u && ([x] + rest)[..i + 1] == [x] + rest[..i];
  }

  lemma RemoveIsWithout(r: Registry, name: Name)
    requires r.Valid()
    ensures OnlyWithout(r, r.Remove(name), name)
  {
    hide Before, Keep;
    var kept := Elements(r.order) - {name};
    forall v, u | v != name && u != name && Before(r.order, v, u) ensures Before(Keep(r.order, kept), v, u) {
      BeforeMembers(r.order, v, u);
      KeepBefore(r.order, kept, v, u);
    }
  }

  lemma BeforeMembers(s: seq<Name>, v: Name, u: Name)
    requires Before(s, v, u)
    ensures v in s && u in s
  {
  }

  /** A startup turn gets as far as `start()`: nothing blocks the plugin before. */
  ghost predicate Tried(r: Registry, name: Name, deadline: bool, a: Attempt) {
    && name in r.plugins && r.plugins[name].state == Discovered && !deadline && a != MigrationFails
    && forall d :: d in r.plugins[name].hard ==> r.IsReady(d)
  }

  /** The state a startup turn leaves its plugin in, when the plugin stays registered. */
  function Ended(a: Attempt): PluginState {
    match a
    case Started => Ready
    case StartedNotReady(left) => left
    case _ => Hung
  }

  /** An attempt after which the instance is dropped: the start failed and the plugin stopped. */
  predicate Dropped(a: Attempt) {
    a == StartFailed(StopClean) || a == StartFailed(StopRaises)
  }

  /** How each ending of a startup turn leaves the registry. */
  lemma StartOneExact(r: Registry, name: Name, deadline: bool, a: Attempt)
    requires r.Valid() && name in r.plugins && r.plugins[name].state in {Discovered, Blocked}
    ensures var t := StartOne(r, name, deadline, a);
      && (!Tried(r, name, deadline, a) ==> OnlyState(r, t, name, Blocked))
      && (Tried(r, name, deadline, a) && !Dropped(a) ==> OnlyState(r, t, name, Ended(a)))
      && (Tried(r, name, deadline, a) && Dropped(a) ==> OnlyWithout(r, t, name))
  {
    hide Registry.Valid, Before, Keep;
    if Tried(r, name, deadline, a) && Dropped(a) {
      RemoveIsWithout(r, name);
    }
  }

  lemma StartOneKeeps(r: Registry, rank: seq<Name>, k: nat, deadline: bool, a: Attempt)
    requires Supported(r, rank) && a.Valid()
    requires k < |rank| && rank[k] in r.plugins && r.plugins[rank[k]].state in {Discovered, Blocked}
    requires forall q :: r.IsReady(q) ==> q in rank[..k]
    ensures Supported(StartOne(r, rank[k], deadline, a), rank)
    ensures forall q :: StartOne(r, rank[k], deadline, a).IsReady(q) ==> q in rank[..k + 1]
    ensures forall q :: q != rank[k] ==>
      (q in r.plugins <==> q in StartOne(r, rank[k], deadline, a).plugins)
      && (q in r.plugins ==> StartOne(r, rank[k], deadline, a).plugins[q] == r.plugins[q])
  {
    StartOneFrame(r, rank[k], deadline, a);
    hide StartOne, Supported;
    OneMoreKeeps(r, StartOne(r, rank[k], deadline, a), rank, k);
  }

  /** A turn changes one plugin, and makes it ready only when its hard dependencies are. */
  lemma StartOneFrame(r: Registry, name: Name, deadline: bool, a: Attempt)
    requires a.Valid() && name in r.plugins && r.plugins[name].state in {Discovered, Blocked}
    ensures forall q :: q != name ==>
      (q in r.plugins <==> q in StartOne(r, name, deadline, a).plugins)
      && (q in r.plugins ==> StartOne(r, name, deadline, a).plugins[q] == r.plugins[q])
    ensures StartOne(r, name, deadline, a).IsReady(name) ==>
      forall d :: d in StartOne(r, name, deadline, a).plugins[name].hard ==> r.IsReady(d)
  {
  }

  lemma OneMoreKeeps(r: Registry, after: Registry, rank: seq<Name>, k: nat)
    requires Supported(r, rank) && k < |rank| && !r.IsReady(rank[k])
    requires forall q :: r.IsReady(q) ==> q in rank[..k]
    requires forall q :: q != rank[k] ==>
      (q in r.plugins <==> q in after.plugins) && (q in r.plugins ==> after.plugins[q] == r.plugins[q])
    requires after.IsReady(rank[k]) ==> forall d :: d in after.plugins[rank[k]].hard ==> r.IsReady(d)
    ensures Supported(after, rank)
    ensures forall q :: after.IsReady(q) ==> q in rank[..k + 1]
  {
    var name := rank[k];
    assert rank[..k + 1] == rank[..k] + [name];
    assert forall q :: q != name ==> (after.IsReady(q) <==> r.IsReady(q));
    forall q, d | after.IsReady(q) && d in after.plugins[q].hard
      ensures after.IsReady(d) && Before(rank, d, q)
    {
      if q == name {
        assert rank[k] == q && d in rank[..k];
      } else {
        assert r.IsReady(q) && d in r.plugins[q].hard;
      }
    }
  }

  /** What the environment decides during startup: who is out of time, and how each attempt ends. */
  datatype Env = Env(deadline: Name -> bool, attempt: Name -> Attempt) {
    ghost predicate Valid() {
      forall n :: attempt(n).Valid()
    }
  }

  /** The registry after the first `k` turns of the startup loop. */
  ghost function AfterTurns(r: Registry, order: seq<Name>, env: Env, k: nat): (t: Registry)
    requires k <= |order| && Distinct(order) && Elements(order) <= r.plugins.Keys
    ensures forall i :: k <= i < |order| ==> order[i] in t.plugins && t.plugins[order[i]] == r.plugins[order[i]]
  {
    if k == 0 then r
    else
      var t := AfterTurns(r, order, env, k - 1);
      StartOne(t, order[k - 1], env.deadline(order[k - 1]), env.attempt(order[k - 1]))
  }

  /** The plugin's own attempt can succeed: it was not blocked before the loop, and starts in time. */
  ghost predicate Eligible(r: Registry, env: Env, n: Name) {
    && n in r.plugins && r.plugins[n].state == Discovered
    && !env.deadline(n) && env.attempt(n) == Started
  }

  /** Eligible, with every hard dependency placed earlier and good in turn. */
  ghost predicate GoodAt(r: Registry, order: seq<Name>, env: Env, k: nat)
    requires k < |order|
  {
    && Eligible(r, env, order[k])
    && forall d :: d in r.plugins[order[k]].hard ==>
         exists j :: 0 <= j < k && order[j] == d && GoodAt(r, order, env, j)
  }

  /** Nothing is ready before the loop. */
  ghost predicate Unstarted(r: Registry) {
    forall n :: n in r.plugins ==> r.plugins[n].state in {Discovered, Blocked}
  }

  /** The plugin's turn makes it ready exactly when it is eligible and nothing it needs is missing. */
  lemma TurnMakesReady(r: Registry, t: Registry, name: Name, deadline: bool, a: Attempt)
    requires name in r.plugins && r.plugins[name].state in {Discovered, Blocked} && a.Valid()
    requires name in t.plugins && t.plugins[name] == r.plugins[name]
    ensures StartOne(t, name, deadline, a).IsReady(name) <==>
      r.plugins[name].state == Discovered && !deadline && a == Started
      && forall d :: d in r.plugins[name].hard ==> t.IsReady(d)
  {
  }

  /** After `k` turns a name is ready exactly when it had a good turn. */
  ghost predicate ReadyExact(r: Registry, order: seq<Name>, env: Env, k: nat, t: Registry)
    requires k <= |order|
  {
    && (forall q :: t.IsReady(q) ==> q in order[..k])
    && (forall i :: 0 <= i < k ==> (t.IsReady(order[i]) <==> GoodAt(r, order, env, i)))
  }

  lemma ReadyIsGoodTurn(r: Registry, order: seq<Name>, env: Env, k: nat, t: Registry, d: Name)
    requires k <= |order| && ReadyExact(r, order, env, k, t)
    ensures t.IsReady(d) <==> exists j :: 0 <= j < k && order[j] == d && GoodAt(r, order, env, j)
  {
    hide GoodAt, Registry.IsReady;
    if t.IsReady(d) {
      var j :| 0 <= j < |order[..k]| && order[..k][j] == d;
      assert order[j] == d;
    }
  }

  /** Earlier names keep their state through a turn, and the turn's own name is good exactly when ready. */
  lemma ReadyStep(r: Registry, order: seq<Name>, env: Env, k: nat, t: Registry, after: Registry)
    requires k < |order| && Distinct(order) && ReadyExact(r, order, env, k, t)
    requires forall q :: q != order[k] ==> (after.IsReady(q) <==> t.IsReady(q))
    requires after.IsReady(order[k]) <==>
      Eligible(r, env, order[k]) && forall d :: d in r.plugins[order[k]].hard ==> t.IsReady(d)
    ensures ReadyExact(r, order, env, k + 1, after)
  {
    assert order[..k + 1] == order[..k] + [order[k]];
    hide Registry.IsReady, Eligible;
    forall d ensures t.IsReady(d) <==> exists j :: 0 <= j < k && order[j] == d && GoodAt(r, order, env, j) {
      ReadyIsGoodTurn(r, order, env, k, t, d);
    }
    assert after.IsReady(order[k]) <==> GoodAt(r, order, env, k);
    hide GoodAt;
  }

  lemma {:induction false} ReadyAfterTurns(r: Registry, order: seq<Name>, env: Env, k: nat)
    requires k <= |order| && Distinct(order) && Elements(order) <= r.plugins.Keys
    requires Unstarted(r) && env.Valid()
    ensures Supported(AfterTurns(r, order, env, k), order)
    ensures ReadyExact(r, order, env, k, AfterTurns(r, order, env, k))
  {
    hide StartOne, Before, Supported, GoodAt, ReadyExact;
    if k == 0 {
      NothingReady(r, order, env);
    } else {
      var t, name := AfterTurns(r, order, env, k - 1), order[k - 1];
      assert name in Elements(order);
      ReadyAfterTurns(r, order, env, k - 1);
      ReadyInPrefix(r, order, env, k - 1, t);
      StartOneKeeps(t, order, k - 1, env.deadline(name), env.attempt(name));
      TurnMakesReady(r, t, name, env.deadline(name), env.attempt(name));
      ReadyStep(r, order, env, k - 1, t, AfterTurns(r, order, env, k));
    }
  }

  lemma ReadyInPrefix(r: Registry, order: seq<Name>, env: Env, k: nat, t: Registry)
    requires k <= |order| && ReadyExact(r, order, env, k, t)
    ensures forall q :: t.IsReady(q) ==> q in order[..k]
  {
  }

  lemma NothingReady(r: Registry, order: seq<Name>, env: Env)
    requires Unstarted(r)
    ensures Supported(r, order) && ReadyExact(r, order, env, 0, r)
  {
  }

  /** The same set, said by closure: everything hard-reachable is eligible and correctly ordered. */
  ghost predicate GoodClosure(r: Registry, order: seq<Name>, env: Env, n: Name) {
    forall m :: Reach(HardGraph(r), n, m) ==>
      Eligible(r, env, m) && forall d :: d in r.plugins[m].hard ==> Before(order, d, m)
  }

  lemma GoodDependency(r: Registry, order: seq<Name>, env: Env, n: Name, d: Name)
    requires GoodClosure(r, order, env, n) && n in r.plugins && d in r.plugins[n].hard
    ensures GoodClosure(r, order, env, d)
  {
    assert Edge(HardGraph(r), n, d);
    ReachEdge(HardGraph(r), n, d);
    hide Reach;
    forall m | Reach(HardGraph(r), d, m)
      ensures Eligible(r, env, m) && forall e :: e in r.plugins[m].hard ==> Before(order, e, m)
    {
      ReachTransitive(HardGraph(r), n, d, m);
    }
  }

  lemma {:induction false} ClosureGivesGood(r: Registry, order: seq<Name>, env: Env, k: nat)
    requires k < |order| && Distinct(order) && GoodClosure(r, order, env, order[k])
    ensures GoodAt(r, order, env, k)
  {
    var n := order[k];
    ReachSelf(HardGraph(r), n);
    forall d | d in r.plugins[n].hard
      ensures exists j :: 0 <= j < k && order[j] == d && GoodAt(r, order, env, j)
    {
      assert Before(order, d, n);
      var i :| 0 <= i < |order| && order[i] == n && d in order[..i];
      var j :| 0 <= j < |order[..i]| && order[..i][j] == d;
      GoodDependency(r, order, env, n, d);
      ClosureGivesGood(r, order, env, j);
    }
  }

  lemma {:induction false} GoodGivesClosure(r: Registry, order: seq<Name>, env: Env, k: nat, p: seq<Name>, m: Name)
    requires k < |order| && GoodAt(r, order, env, k) && IsPath(HardGraph(r), p, order[k], m)
    ensures Eligible(r, env, m) && forall d :: d in r.plugins[m].hard ==> Before(order, d, m)
    decreases |p|
  {
    if |p| == 1 {
      forall d | d in r.plugins[m].hard ensures Before(order, d, m) {
        var j :| 0 <= j < k && order[j] == d && GoodAt(r, order, env, j);
        assert order[..k][j] == d;
      }
    } else {
      assert Edge(HardGraph(r), p[0], p[1]);
      var j :| 0 <= j < k && order[j] == p[1] && GoodAt(r, order, env, j);
      GoodGivesClosure(r, order, env, j, p[1..], m);
    }
  }

  lemma GoodIsClosure(r: Registry, order: seq<Name>, env: Env, k: nat)
    requires k < |order| && Distinct(order)
    ensures GoodAt(r, order, env, k) <==> GoodClosure(r, order, env, order[k])
  {
    if GoodAt(r, order, env, k) {
      forall m | Reach(HardGraph(r), order[k], m)
        ensures Eligible(r, env, m) && forall d :: d in r.plugins[m].hard ==> Before(order, d, m)
      {
        var p :| IsPath(HardGraph(r), p, order[k], m);
        GoodGivesClosure(r, order, env, k, p, m);
      }
    } else if GoodClosure(r, order, env, order[k]) {
      ClosureGivesGood(r, order, env, k);
    }
  }
}
