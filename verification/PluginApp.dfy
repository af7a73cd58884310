/**
 * `ReticulumPiApp` itself: startup from a loaded registry, and every run of
 * startup turns, enables, disables and readiness losses after it.
 */
module PluginApp {
  import opened Names
  import opened DependencyGraph
  import opened StartOrder
  import opened Lifecycle
  import Tarjan

  /** Fresh from `_load_plugins`. */
  ghost predicate Loaded(r: Registry) {
    r.Valid() && forall n :: n in r.plugins ==> r.plugins[n].state == Discovered
  }

  function Invalid(r: Registry): set<Name> {
    set n | n in r.plugins && !r.plugins[n].validMetadata
  }

  /** Dependencies count only for plugins that are not blocked. */
  function Declared(r: Registry, soft: bool): Graph {
    map n | n in r.plugins ::
      if r.plugins[n].state == Blocked then [] else if soft then r.plugins[n].soft else r.plugins[n].hard
  }

  /** `hard_dependencies`: the hard edges between loaded, non-blocked plugins. */
  function HardEdges(r: Registry): Graph {
    map n | n in r.plugins :: Keep(Declared(r, false)[n], r.plugins.Keys)
  }

  /** The names on a hard cycle. */
  ghost function Cyclic(r: Registry): set<Name> {
    set n | n in r.plugins && OnCycle(HardEdges(r), n)
  }

  ghost function PlanOf(r: Registry): Plan {
    Plan(r.order, Declared(r, false), Declared(r, true), Cyclic(r))
  }

  /** `_block_invalid_plugin_metadata`. */
  function Checked(loaded: Registry): Registry {
    BlockAll(loaded, Invalid(loaded))
  }

  /** The registry when the startup loop begins: invalid and cyclic plugins are blocked. */
  ghost function Prepared(loaded: Registry): Registry {
    BlockAll(Checked(loaded), Cyclic(Checked(loaded)))
  }

  ghost function StartList(loaded: Registry): seq<Name>
    requires loaded.Valid()
  {
    Order(PlanOf(Checked(loaded)))
  }

  lemma StartListNames(loaded: Registry)
    requires loaded.Valid()
    ensures PlanOf(Checked(loaded)).Valid()
    ensures Distinct(StartList(loaded)) && Elements(StartList(loaded)) == loaded.plugins.Keys
  {
    hide Order, OnCycle, HardEdges, CycleMembers, Distinct;
    OrderCorrect(PlanOf(Checked(loaded)));
  }

  /** The hard and soft edges between the plugins outside hard cycles, after the metadata check. */
  ghost function WalkedGraph(loaded: Registry): Graph
    requires loaded.Valid()
  {
    StartListNames(loaded);
    PlanOf(Checked(loaded)).Walked()
  }

  /** The registry after startup, put in start order. */
  ghost function Startup(loaded: Registry, env: Env): Registry
    requires loaded.Valid()
  {
    StartListNames(loaded);
    var order := StartList(loaded);
    var t := AfterTurns(Prepared(loaded), order, env, |order|);
    Registry(Keep(order, t.plugins.Keys), t.plugins)
  }

  /** The plugin itself is loaded, well described, outside hard cycles, migrates and starts. */
  ghost predicate CanStart(loaded: Registry, env: Env, m: Name) {
    && m in loaded.plugins && loaded.plugins[m].validMetadata
    && !OnCycle(HardEdges(Checked(loaded)), m)
    && !env.deadline(m) && env.attempt(m) == Started
  }

  /** Every plugin in the hard closure of `n`, itself included, can start. */
  ghost predicate ClosureCanStart(loaded: Registry, env: Env, n: Name) {
    forall m :: Reach(HardGraph(loaded), n, m) ==> CanStart(loaded, env, m)
  }

  /** Every hard edge in that closure is respected by the start order. */
  ghost predicate ClosureInOrder(loaded: Registry, n: Name)
    requires loaded.Valid()
  {
    forall m, d :: Reach(HardGraph(loaded), n, m) && Edge(HardGraph(loaded), m, d) ==>
      Before(StartList(loaded), d, m)
  }

  /**
   * What is ready after startup, for every graph and every environment: the
   * plugins whose hard closure can start and is respected by the start order.
   */
  lemma StartupExact(loaded: Registry, env: Env, n: Name)
    requires Loaded(loaded) && env.Valid()
    ensures Startup(loaded, env).IsReady(n) <==>
      ClosureCanStart(loaded, env, n) && ClosureInOrder(loaded, n)
  {
    hide Reach, OnCycle, Order, GoodAt, GoodClosure, Supported, Prepared, ClosureInOrder, CanStart, Checked;
    StartListNames(loaded);
    PreparedFacts(loaded);
    var order, r := StartList(loaded), Prepared(loaded);
    ReadyAfterTurns(r, order, env, |order|);
    hide AfterTurns, StartList;
    assert order[..|order|] == order;
    ReachSelf(HardGraph(loaded), n);
    if n in loaded.plugins {
      assert n in Elements(order);
      var k :| 0 <= k < |order| && order[k] == n;
      GoodIsClosure(r, order, env, k);
      ClosureAgrees(loaded, env, n);
    } else {
      assert !CanStart(loaded, env, n) by {
        NotLoaded(loaded, env, n);
      }
    }
  }

  lemma NotLoaded(loaded: Registry, env: Env, n: Name)
    requires n !in loaded.plugins
    ensures !CanStart(loaded, env, n)
  {
  }

  lemma PreparedFacts(loaded: Registry)
    requires Loaded(loaded)
    ensures Prepared(loaded).plugins.Keys == loaded.plugins.Keys && Unstarted(Prepared(loaded))
    ensures HardGraph(Prepared(loaded)) == HardGraph(loaded)
    ensures forall m :: m in loaded.plugins ==>
      (Prepared(loaded).plugins[m].state == Discovered <==>
       loaded.plugins[m].validMetadata && !OnCycle(HardEdges(Checked(loaded)), m))
  {
    hide OnCycle, HardEdges, BlockAll;
    BlockAllFacts(loaded, Invalid(loaded));
    BlockAllFacts(Checked(loaded), Cyclic(Checked(loaded)));
    hide HardGraph;
  }

  lemma PreparedValid(loaded: Registry)
    requires Loaded(loaded)
    ensures Prepared(loaded).Valid()
  {
    hide Cyclic, Distinct;
    assert Prepared(loaded).plugins.Keys == loaded.plugins.Keys;
  }

  lemma BlockAllFacts(r: Registry, names: set<Name>)
    ensures forall m :: m in r.plugins && m !in names ==> BlockAll(r, names).plugins[m] == r.plugins[m]
    ensures BlockAll(r, names).plugins.Keys == r.plugins.Keys && BlockAll(r, names).order == r.order
    ensures HardGraph(BlockAll(r, names)) == HardGraph(r)
    ensures forall m :: m in r.plugins ==>
      BlockAll(r, names).plugins[m].state == if m in names then Blocked else r.plugins[m].state
  {
  }

  lemma ClosureAgrees(loaded: Registry, env: Env, n: Name)
    requires Loaded(loaded)
    ensures GoodClosure(Prepared(loaded), StartList(loaded), env, n) <==>
      ClosureCanStart(loaded, env, n) && ClosureInOrder(loaded, n)
  {
    hide Reach, OnCycle, Order, Before, Prepared, Checked, StartList;
    PreparedFacts(loaded);
    var r, order, h := Prepared(loaded), StartList(loaded), HardGraph(loaded);
    if GoodClosure(r, order, env, n) {
      forall m | Reach(h, n, m) ensures CanStart(loaded, env, m) {
        assert Eligible(r, env, m);
      }
      forall m, d | Reach(h, n, m) && Edge(h, m, d) ensures Before(order, d, m) {
        assert Eligible(r, env, m) && HardGraph(r)[m] == h[m];
      }
    }
    if ClosureCanStart(loaded, env, n) && ClosureInOrder(loaded, n) {
      forall m | Reach(h, n, m)
        ensures Eligible(r, env, m) && forall d :: d in r.plugins[m].hard ==> Before(order, d, m)
      {
        assert CanStart(loaded, env, m) && HardGraph(r)[m] == h[m];
        assert forall d :: d in h[m] ==> Edge(h, m, d);
      }
    }
  }

  /**
   * When nothing in the hard closure of a plugin lies on a cycle of hard and soft
   * edges outside the hard cycles, the start order plays no part for it: ready
   * means the whole hard closure can start.
   */
  lemma StartupExactAcyclic(loaded: Registry, env: Env, n: Name)
    requires Loaded(loaded) && env.Valid()
    requires forall u :: Reach(HardGraph(loaded), n, u) ==> !OnCycle(WalkedGraph(loaded), u)
    ensures Startup(loaded, env).IsReady(n) <==> ClosureCanStart(loaded, env, n)
  {
    StartupExact(loaded, env, n);
    if ClosureCanStart(loaded, env, n) {
      forall m, d | Reach(HardGraph(loaded), n, m) && Edge(HardGraph(loaded), m, d)
        ensures Before(StartList(loaded), d, m)
      {
        ReachEdge(HardGraph(loaded), m, d);
        ReachTransitive(HardGraph(loaded), n, m, d);
        AcyclicBefore(loaded, env, m, d);
      }
    }
  }

  /** The same plugins, loaded in another order. */
  ghost predicate Relisted(loaded: Registry, names: seq<Name>) {
    Distinct(names) && Elements(names) == loaded.plugins.Keys
  }

  /** No walked path leads from a hard dependency in the closure of `n` back to its dependent. */
  ghost predicate NoWayBack(loaded: Registry, n: Name)
    requires loaded.Valid()
  {
    forall m, d :: Reach(HardGraph(loaded), n, m) && Edge(HardGraph(loaded), m, d) ==>
      !Reach(WalkedGraph(loaded), d, m)
  }

  /**
   * A plugin is ready after startup whatever order the plugins were loaded in
   * exactly when its hard closure can start and no soft cycle runs back along
   * one of the closure's hard edges.
   */
  lemma StartupExactEveryListing(loaded: Registry, env: Env, n: Name)
    requires Loaded(loaded) && env.Valid()
    ensures (forall names :: Relisted(loaded, names) ==>
               Loaded(loaded.(order := names)) && Startup(loaded.(order := names), env).IsReady(n)) <==>
            ClosureCanStart(loaded, env, n) && NoWayBack(loaded, n)
  {
    hide Reach, OnCycle, Startup, CanStart, Checked, PlanOf, HardGraph, StartList, Edge;
    forall names | Relisted(loaded, names)
      ensures Loaded(loaded.(order := names))
      ensures Startup(loaded.(order := names), env).IsReady(n) <==>
              ClosureCanStart(loaded, env, n) && ClosureInOrder(loaded.(order := names), n)
    {
      RelistedFacts(loaded, names);
      RelistedClosure(loaded, env, n, names);
      StartupExact(loaded.(order := names), env, n);
    }
    assert Relisted(loaded, loaded.order);
    if ClosureCanStart(loaded, env, n) {
      ClosureEveryListing(loaded, env, n);
    }
  }

  /** What does not depend on the loading order. */
  lemma RelistedFacts(loaded: Registry, names: seq<Name>)
    requires Loaded(loaded) && Relisted(loaded, names)
    ensures Loaded(loaded.(order := names)) && HardGraph(loaded.(order := names)) == HardGraph(loaded)
    ensures PlanOf(Checked(loaded.(order := names))) == PlanOf(Checked(loaded)).(names := names)
    ensures PlanOf(Checked(loaded)).Valid() && Listing(PlanOf(Checked(loaded)), names)
    ensures forall m, env :: CanStart(loaded.(order := names), env, m) <==> CanStart(loaded, env, m)
  {
    hide OnCycle, Order, Checked, Distinct, Elements;
    StartListNames(loaded);
    PlanNames(loaded);
    CheckedRelisted(loaded, names);
    PlanRelisted(Checked(loaded), names);
    hide PlanOf;
    assert HardGraph(loaded.(order := names)) == HardGraph(loaded);
  }

  lemma CheckedRelisted(loaded: Registry, names: seq<Name>)
    ensures Checked(loaded.(order := names)) == Checked(loaded).(order := names)
  {
    assert Invalid(loaded.(order := names)) == Invalid(loaded);
  }

  lemma PlanRelisted(r: Registry, names: seq<Name>)
    ensures PlanOf(r.(order := names)) == PlanOf(r).(names := names)
    ensures HardEdges(r.(order := names)) == HardEdges(r)
  {
    hide OnCycle;
    assert Declared(r.(order := names), false) == Declared(r, false);
    assert Declared(r.(order := names), true) == Declared(r, true);
    assert HardEdges(r.(order := names)) == HardEdges(r);
  }

  lemma RelistedClosure(loaded: Registry, env: Env, n: Name, names: seq<Name>)
    requires Loaded(loaded) && Relisted(loaded, names)
    ensures ClosureCanStart(loaded.(order := names), env, n) <==> ClosureCanStart(loaded, env, n)
  {
    RelistedFacts(loaded, names);
    hide Reach, CanStart, HardGraph, PlanOf, Checked;
  }

  lemma RelistedLoaded(loaded: Registry)
    requires Loaded(loaded)
    ensures forall names :: Relisted(loaded, names) ==> Loaded(loaded.(order := names))
  {
  }

  lemma ClosureEveryListing(loaded: Registry, env: Env, n: Name)
    requires Loaded(loaded) && env.Valid() && ClosureCanStart(loaded, env, n)
    ensures (forall names :: Relisted(loaded, names) ==>
               Loaded(loaded.(order := names)) && ClosureInOrder(loaded.(order := names), n)) <==> NoWayBack(loaded, n)
  {
    hide Reach, OnCycle, CanStart, Checked, PlanOf, HardGraph, StartList, Edge, Before;
    RelistedLoaded(loaded);
    StartListNames(loaded);
    if NoWayBack(loaded, n) {
      forall names | Relisted(loaded, names) ensures ClosureInOrder(loaded.(order := names), n) {
        RelistedFacts(loaded, names);
        var other := loaded.(order := names);
        forall m, d | Reach(HardGraph(other), n, m) && Edge(HardGraph(other), m, d)
          ensures Before(StartList(other), d, m)
        {
          EdgeEveryListing(loaded, env, n, m, d);
        }
      }
    } else {
      var m, d :| Reach(HardGraph(loaded), n, m) && Edge(HardGraph(loaded), m, d)
        && Reach(WalkedGraph(loaded), d, m);
      EdgeEveryListing(loaded, env, n, m, d);
      var names :| Relisted(loaded, names) && !Before(StartList(loaded.(order := names)), d, m);
      RelistedFacts(loaded, names);
      assert !ClosureInOrder(loaded.(order := names), n);
    }
  }

  /** One hard edge of a closure that can start. */
  lemma EdgeEveryListing(loaded: Registry, env: Env, n: Name, m: Name, d: Name)
    requires Loaded(loaded) && ClosureCanStart(loaded, env, n)
    requires Reach(HardGraph(loaded), n, m) && Edge(HardGraph(loaded), m, d)
    ensures forall names :: Relisted(loaded, names) ==> Loaded(loaded.(order := names))
    ensures (forall names :: Relisted(loaded, names) ==> Before(StartList(loaded.(order := names)), d, m)) <==>
            !Reach(WalkedGraph(loaded), d, m)
  {
    hide Reach, OnCycle, CanStart, Checked, PlanOf, HardGraph, Edge, Before, Order, Plan.Walked, StartList;
    hide Listing, Relisted, Loaded, Registry.Valid, Plan.Valid;
    RelistedLoaded(loaded);
    ClosureEdgeIsWalked(loaded, env, n, m, d);
    OrderedInEveryListing(PlanOf(Checked(loaded)), m, d);
    SameOrders(loaded, m, d);
  }

  /** The start lists over every loading order are the orders over every listing of the plan. */
  lemma SameOrders(loaded: Registry, m: Name, d: Name)
    requires Loaded(loaded) && PlanOf(Checked(loaded)).Valid()
    ensures forall names :: Relisted(loaded, names) ==> Loaded(loaded.(order := names))
    ensures var p := PlanOf(Checked(loaded));
      (forall names :: Relisted(loaded, names) ==> Before(StartList(loaded.(order := names)), d, m)) <==>
      (forall names :: Listing(p, names) ==> p.(names := names).Valid() && Before(Order(p.(names := names)), d, m))
  {
    hide Checked, PlanOf, Before, Order, StartList;
    RelistedLoaded(loaded);
    PlanNames(loaded);
    var p := PlanOf(Checked(loaded));
    forall names | Relisted(loaded, names)
      ensures p.(names := names).Valid() && StartList(loaded.(order := names)) == Order(p.(names := names))
    {
      StartListRelisted(loaded, names);
    }
    assert forall names :: Relisted(loaded, names) <==> Listing(p, names);
  }

  lemma StartListRelisted(loaded: Registry, names: seq<Name>)
    requires Loaded(loaded) && Relisted(loaded, names)
    ensures Loaded(loaded.(order := names)) && PlanOf(Checked(loaded)).(names := names).Valid()
    ensures StartList(loaded.(order := names)) == Order(PlanOf(Checked(loaded)).(names := names))
  {
    hide Checked, PlanOf, Order;
    RelistedFacts(loaded, names);
    ListingPlan(PlanOf(Checked(loaded)), names);
  }

  lemma ClosureEdgeIsWalked(loaded: Registry, env: Env, n: Name, m: Name, d: Name)
    requires Loaded(loaded) && ClosureCanStart(loaded, env, n)
    requires Reach(HardGraph(loaded), n, m) && Edge(HardGraph(loaded), m, d)
    ensures PlanOf(Checked(loaded)).Valid() && Edge(WalkedGraph(loaded), m, d)
  {
    hide Reach, OnCycle, CanStart, Checked, PlanOf, HardGraph, Edge, Plan.Walked, Order;
    StartListNames(loaded);
    ReachEdge(HardGraph(loaded), m, d);
    ReachTransitive(HardGraph(loaded), n, m, d);
    StartableEdge(loaded, env, m, d);
    WalkedFromDeps(PlanOf(Checked(loaded)), m, d);
  }

  lemma PlanNames(loaded: Registry)
    requires Loaded(loaded)
    ensures Elements(PlanOf(Checked(loaded)).names) == loaded.plugins.Keys
  {
  }

  lemma WalkedFromDeps(p: Plan, m: Name, d: Name)
    requires p.Valid() && m in Elements(p.names) - p.cyclic && d in Elements(p.names) - p.cyclic
    requires d in p.hard[m] + p.soft[m]
    ensures Edge(p.Walked(), m, d)
  {
  }

  lemma AcyclicBefore(loaded: Registry, env: Env, m: Name, d: Name)
    requires Loaded(loaded) && CanStart(loaded, env, m) && CanStart(loaded, env, d)
    requires Edge(HardGraph(loaded), m, d)
    requires !OnCycle(WalkedGraph(loaded), m)
    ensures Before(StartList(loaded), d, m)
  {
    hide Order, Before, CycleMembers, OnCycle, Plan.Walked;
    var p := PlanOf(Checked(loaded));
    StartListNames(loaded);
    StartableEdge(loaded, env, m, d);
    hide PlanOf, CanStart, Edge, HardGraph, Loaded;
    OrderOfEdge(p, m, d);
  }

  lemma StartableEdge(loaded: Registry, env: Env, m: Name, d: Name)
    requires Loaded(loaded) && CanStart(loaded, env, m) && CanStart(loaded, env, d)
    requires Edge(HardGraph(loaded), m, d) && PlanOf(Checked(loaded)).Valid()
    ensures var p := PlanOf(Checked(loaded));
      && m in Elements(p.names) - p.cyclic && d in Elements(p.names) - p.cyclic
      && d in p.hard[m] + p.soft[m]
  {
    hide OnCycle, Distinct, HardEdges;
    var p := PlanOf(Checked(loaded));
    assert p.hard[m] == loaded.plugins[m].hard;
    assert d in p.hard[m];
  }

  lemma OrderOfEdge(p: Plan, m: Name, d: Name)
    requires p.Valid() && m in Elements(p.names) - p.cyclic && d in Elements(p.names) - p.cyclic
    requires d in p.hard[m] + p.soft[m] && !OnCycle(p.Walked(), m)
    ensures Before(Order(p), d, m)
  {
    OrderCorrect(p);
    hide Reach, Order, Before, CycleMembers;
    assert Edge(p.Edges(), m, d) && Edge(p.Walked(), m, d);
  }

  // ---------------------------------------------------------------- a soft cycle can invert a hard edge

  /** `b` is listed first and soft-depends on `a`, which hard-depends on `b`. */
  function SoftCycle(a: Name, b: Name): Registry {
    Registry([b, a], map[b := Plugin(Discovered, [], [a], true), a := Plugin(Discovered, [b], [], true)])
  }

  const ALL_START := Env((n: Name) => false, (n: Name) => Started)

  /** The hard edges of that registry. */
  function Chain(a: Name, b: Name): Graph {
    map[b := [], a := [b]]
  }

  lemma ChainAcyclic(a: Name, b: Name, n: Name)
    requires a != b
    ensures !OnCycle(Chain(a, b), n)
  {
    var g := Chain(a, b);
    if OnCycle(g, n) {
      var v :| Edge(g, n, v) && Reach(g, v, n);
      assert v == b && g[b] == [];
      ClosedSet(g, v, n, {b});
    }
  }

  lemma SoftCycleGraphs(a: Name, b: Name)
    requires a != b
    ensures Loaded(SoftCycle(a, b)) && Checked(SoftCycle(a, b)) == SoftCycle(a, b)
    ensures Declared(SoftCycle(a, b), false) == Chain(a, b)
    ensures Declared(SoftCycle(a, b), true) == map[b := [a], a := []]
    ensures HardGraph(SoftCycle(a, b)) == Chain(a, b)
  {
    var r := SoftCycle(a, b);
    assert r.plugins.Keys == {a, b} && Elements(r.order) == {a, b};
    assert Invalid(r) == {};
    assert BlockAll(r, {}).plugins == r.plugins;
  }

  lemma SoftCycleHardEdges(a: Name, b: Name)
    requires a != b
    ensures HardEdges(SoftCycle(a, b)) == Chain(a, b)
  {
    var r := SoftCycle(a, b);
    SoftCycleGraphs(a, b);
    assert r.plugins.Keys == {a, b};
    hide Declared, Loaded, Checked, HardGraph;
    assert [b][1..] == [] && Keep([b], {a, b}) == [b] && Keep([], {a, b}) == [];
    assert HardEdges(r).Keys == {a, b};
  }

  lemma SoftCycleOrder(a: Name, b: Name)
    requires a != b
    ensures Loaded(SoftCycle(a, b)) && StartList(SoftCycle(a, b)) == [a, b] && !Before([a, b], b, a)
  {
    hide Order, OnCycle, HardEdges, Declared, Checked, BlockAll, Before, HardGraph;
    SoftCycleGraphs(a, b);
    SoftCycleHardEdges(a, b);
    forall n ensures !OnCycle(Chain(a, b), n) {
      ChainAcyclic(a, b, n);
    }
    hide Loaded;
    assert PlanOf(SoftCycle(a, b)).cyclic == {};
    SoftCycleInverts(PlanOf(SoftCycle(a, b)), a, b);
  }

  /** Then `a` stays blocked although its whole hard closure could start. */
  lemma SoftCycleBlocks(a: Name, b: Name)
    requires a != b
    ensures Loaded(SoftCycle(a, b)) && ALL_START.Valid()
    ensures ClosureCanStart(SoftCycle(a, b), ALL_START, a)
    ensures !Startup(SoftCycle(a, b), ALL_START).IsReady(a)
  {
    hide Order, Startup, Reach, OnCycle, Checked, StartList, Before, CanStart, HardGraph;
    var r := SoftCycle(a, b);
    SoftCycleOrder(a, b);
    SoftCycleGraphs(a, b);
    hide Loaded, Declared, SoftCycle;
    forall m | Reach(HardGraph(r), a, m) ensures CanStart(r, ALL_START, m) {
      ClosedSet(Chain(a, b), a, m, {a, b});
      SoftCycleCanStart(a, b, m);
    }
    ReachSelf(HardGraph(r), a);
    assert Edge(HardGraph(r), a, b);
    StartupExact(r, ALL_START, a);
  }

  lemma SoftCycleCanStart(a: Name, b: Name, m: Name)
    requires a != b && m in {a, b}
    ensures CanStart(SoftCycle(a, b), ALL_START, m)
  {
    SoftCycleGraphs(a, b);
    SoftCycleHardEdges(a, b);
    ChainAcyclic(a, b, m);
    hide OnCycle, HardEdges, Checked, Declared;
  }

  // ---------------------------------------------------------------- every run

  /** Booting walks the start list; afterwards the registry is in start order. */
  datatype Phase = Booting(rank: seq<Name>, next: nat) | Running

  datatype App = App(reg: Registry, phase: Phase)

  datatype Action =
    | Turn(deadline: bool, attempt: Attempt)
    | Finish
    | Lost(name: Name, left: PluginState)
    | Enable(name: Name, instance: Plugin, attempt: Attempt)
    | Disable(name: Name, stop: StopResult)
  {
    ghost predicate Valid() {
      match this
      case Turn(_, a) => a.Valid()
      case Finish => true
      case Lost(_, left) => left in {Stopping, Stopped, Hung}
      case Enable(_, instance, a) => a.Valid() && instance.state == Discovered
      case Disable(_, _) => true
    }
  }

  /** `enable_plugin` under its lock; a refused enable leaves the registry alone. */
  function EnableIn(r: Registry, name: Name, instance: Plugin, a: Attempt): Registry {
    if name in r.plugins then r
    else if !instance.validMetadata then r.Append(name, instance.(state := MarkBlocked(instance.state)))
    else if r.HardProblem(instance) then r
    else match a
      case MigrationFails => r.Append(name, instance.(state := MarkBlocked(instance.state)))
      case Started => r.Append(name, instance.(state := Ready))
      case StartedNotReady(left) => r.Append(name, instance.(state := left))
      case StartHung => r.Append(name, instance.(state := Hung))
      case StartFailed(StopClean) => r
      case StartFailed(StopRaises) => r.Append(name, instance.(state := Failed))
      case StartFailed(StopHangs) => r.Append(name, instance.(state := Hung))
  }

  function ReadyDependents(r: Registry, name: Name): set<Name> {
    set q | q in r.plugins && r.IsReady(q) && name in r.plugins[q].hard
  }

  predicate MayDisable(r: Registry, name: Name) {
    name in r.plugins && r.plugins[name].state != Hung && ReadyDependents(r, name) == {}
  }

  /** After `stop()`: gone, or registered in the state its failure left. */
  function Settle(r: Registry, name: Name, stop: StopResult): Registry
    requires name in r.plugins
  {
    match stop
    case StopClean => r.Remove(name)
    case StopRaises => r.SetState(name, Failed)
    case StopHangs => r.SetState(name, Hung)
  }

  /** `disable_plugin` under its lock: `request_stop`, its readiness loss, then `stop`. */
  ghost function DisableIn(r: Registry, name: Name, stop: StopResult): Registry {
    if !MayDisable(r, name) then r
    else
      var s := RequestStop(r.plugins[name].state);
      Settle(if r.IsReady(name) then LoseReady(r, name, s) else r.SetState(name, s), name, stop)
  }

  ghost function Apply(a: App, act: Action): App {
    match act
    case Turn(deadline, attempt) =>
      if a.phase.Booting? && a.phase.next < |a.phase.rank| && a.phase.rank[a.phase.next] in a.reg.plugins then
        App(StartOne(a.reg, a.phase.rank[a.phase.next], deadline, attempt),
            Booting(a.phase.rank, a.phase.next + 1))
      else a
    case Finish =>
      if a.phase.Booting? && a.phase.next == |a.phase.rank| then
        App(Registry(Keep(a.phase.rank, a.reg.plugins.Keys), a.reg.plugins), Running)
      else a
    case Lost(name, left) =>
      if a.reg.IsReady(name) then a.(reg := LoseReady(a.reg, name, left)) else a
    case Enable(name, instance, attempt) =>
      if a.phase.Running? then a.(reg := EnableIn(a.reg, name, instance, attempt)) else a
    case Disable(name, stop) =>
      if a.phase.Running? then a.(reg := DisableIn(a.reg, name, stop)) else a
  }

  ghost function Run(a: App, acts: seq<Action>): App
    decreases |acts|
  {
    if acts == [] then a else Run(Apply(a, acts[0]), acts[1..])
  }

  ghost predicate BootInv(a: App)
    requires a.phase.Booting?
  {
    var Booting(rank, next) := a.phase;
    && a.reg.Valid() && next <= |rank| && Distinct(rank) && a.reg.plugins.Keys <= Elements(rank)
    && (forall q :: a.reg.IsReady(q) ==> q in rank[..next])
    && (forall i :: next <= i < |rank| ==>
          rank[i] in a.reg.plugins && a.reg.plugins[rank[i]].state in {Discovered, Blocked})
    && Supported(a.reg, rank)
  }

  ghost predicate AppInv(a: App) {
    match a.phase
    case Booting(_, _) => BootInv(a)
    case Running => a.reg.Valid() && Supported(a.reg, a.reg.order)
  }

  /** Forgetting registrations that no ready plugin needs keeps the order facts. */
  lemma KeepSupported(r: Registry, t: Registry, rank: seq<Name>)
    requires Supported(r, rank)
    requires forall q :: t.IsReady(q) ==> r.IsReady(q) && t.plugins[q].hard == r.plugins[q].hard
    requires forall q, d :: t.IsReady(q) && d in t.plugins[q].hard ==> t.IsReady(d)
    ensures Supported(t, Keep(rank, t.plugins.Keys))
  {
    hide Before, Keep;
    forall q, d | t.IsReady(q) && d in t.plugins[q].hard
      ensures t.IsReady(d) && Before(Keep(rank, t.plugins.Keys), d, q)
    {
      assert r.IsReady(q) && d in r.plugins[q].hard && t.IsReady(d);
      assert Before(rank, d, q);
      KeepBefore(rank, t.plugins.Keys, d, q);
    }
  }

  lemma TurnKeeps(a: App, deadline: bool, attempt: Attempt)
    requires AppInv(a) && attempt.Valid()
    ensures AppInv(Apply(a, Turn(deadline, attempt)))
  {
    if a.phase.Booting? && a.phase.next < |a.phase.rank| {
      hide Supported, Before;
      StartOneKeeps(a.reg, a.phase.rank, a.phase.next, deadline, attempt);
      var after := Apply(a, Turn(deadline, attempt));
      TurnValid(a.reg, a.phase.rank[a.phase.next], deadline, attempt);
      hide StartOne, Registry.Valid;
      assert after.reg.plugins.Keys <= Elements(a.phase.rank);
    }
  }

  lemma TurnValid(r: Registry, name: Name, deadline: bool, a: Attempt)
    requires r.Valid() && name in r.plugins
    ensures StartOne(r, name, deadline, a).Valid()
  {
    hide Keep, Distinct, Elements;
    var kept := Elements(r.order) - {name};
    KeepDistinct(r.order, kept);
    KeepElements(r.order, kept);
  }

  lemma LoseReadyFacts(r: Registry, name: Name, left: PluginState)
    requires name in r.plugins && left != Ready
    ensures LoseReady(r, name, left).order == r.order
    ensures LoseReady(r, name, left).plugins.Keys == r.plugins.Keys
    ensures !LoseReady(r, name, left).IsReady(name)
    ensures forall q :: LoseReady(r, name, left).IsReady(q) ==> r.IsReady(q)
    ensures forall q :: q in r.plugins && q != name && !r.IsReady(q) ==>
      LoseReady(r, name, left).plugins[q] == r.plugins[q]
    ensures forall q :: q in r.plugins ==> LoseReady(r, name, left).plugins[q].hard == r.plugins[q].hard
  {
    hide Reach;
  }

  lemma LostKeeps(a: App, name: Name, left: PluginState)
    requires AppInv(a) && left in {Stopping, Stopped, Hung}
    ensures AppInv(Apply(a, Lost(name, left)))
  {
    if a.reg.IsReady(name) {
      hide Supported, LoseReady;
      LoseReadyFacts(a.reg, name, left);
      LoseReadyKeeps(a.reg, if a.phase.Booting? then a.phase.rank else a.reg.order, name, left);
    }
  }

  lemma FinishKeeps(a: App)
    requires AppInv(a)
    ensures AppInv(Apply(a, Finish))
  {
    hide Before, Keep, Distinct, Elements, Supported;
    if a.phase.Booting? && a.phase.next == |a.phase.rank| {
      ReorderKeeps(a.reg, a.phase.rank);
    }
  }

  lemma KeepElements(s: seq<Name>, allowed: set<Name>)
    requires allowed <= Elements(s)
    ensures Elements(Keep(s, allowed)) == allowed
  {
  }

  lemma ReorderKeeps(r: Registry, rank: seq<Name>)
    requires Distinct(rank) && r.plugins.Keys <= Elements(rank) && Supported(r, rank)
    ensures Registry(Keep(rank, r.plugins.Keys), r.plugins).Valid()
    ensures Supported(Registry(Keep(rank, r.plugins.Keys), r.plugins), Keep(rank, r.plugins.Keys))
  {
    hide Before, Keep, Distinct, Elements;
    var keys := r.plugins.Keys;
    KeepDistinct(rank, keys);
    KeepElements(rank, keys);
    var t := Registry(Keep(rank, keys), r.plugins);
    forall q, d | t.IsReady(q) && d in t.plugins[q].hard ensures t.IsReady(d) {
      assert r.IsReady(q) && r.IsReady(d);
    }
    KeepSupported(r, t, rank);
  }

  /** A hot-enabled plugin goes to the end, after the ready providers it was checked against. */
  lemma AppendKeeps(r: Registry, name: Name, plugin: Plugin)
    requires r.Valid() && Supported(r, r.order) && name !in r.plugins
    requires plugin.state == Ready ==> !r.HardProblem(plugin)
    ensures r.Append(name, plugin).Valid()
    ensures Supported(r.Append(name, plugin), r.Append(name, plugin).order)
  {
    var t := r.Append(name, plugin);
    ElementsConcat(r.order, [name]);
    assert t.Valid();
    hide Distinct;
    forall q, d | t.IsReady(q) && d in t.plugins[q].hard
      ensures t.IsReady(d) && Before(t.order, d, q)
    {
      assert r.IsReady(d);
      if q == name {
        assert d in Elements(r.order);
        assert t.order[|r.order|] == q && t.order[..|r.order|] == r.order;
      } else {
        BeforeExtends(r.order, t.order, d, q);
      }
    }
  }

  lemma EnableKeeps(a: App, name: Name, instance: Plugin, attempt: Attempt)
    requires AppInv(a) && attempt.Valid() && instance.state == Discovered
    ensures AppInv(Apply(a, Enable(name, instance, attempt)))
  {
    if a.phase.Running? {
      var after := EnableIn(a.reg, name, instance, attempt);
      if after != a.reg {
        hide Supported;
        AppendKeeps(a.reg, name, after.plugins[name]);
      }
    }
  }

  /** Disabling is only done when nothing ready depends on the plugin, so nothing else is blocked. */
  lemma DisableBlocksNothing(r: Registry, name: Name)
    requires MayDisable(r, name)
    ensures Dependents(r.SetState(name, RequestStop(r.plugins[name].state)), name) == {}
  {
    var t := r.SetState(name, RequestStop(r.plugins[name].state));
    assert forall a :: a != name && Edge(ReadyGraph(t), a, name) ==> a in ReadyDependents(r, name);
    forall q | q in t.plugins ensures q !in Dependents(t, name) {
      if q in Dependents(t, name) {
        var a, b := Border(ReadyGraph(t), q, name, t.plugins.Keys - {name});
        if b != name {
          NoExit(t, b, name);
        }
      }
    }
  }

  /** Nothing leads on from a name that is not registered. */
  lemma NoExit(t: Registry, b: Name, name: Name)
    requires b !in t.plugins && Reach(ReadyGraph(t), b, name)
    ensures b == name
  {
    if b != name {
      var w := FirstEdge(ReadyGraph(t), b, name);
    }
  }

  lemma DisableKeeps(a: App, name: Name, stop: StopResult)
    requires AppInv(a)
    ensures AppInv(Apply(a, Disable(name, stop)))
  {
    hide LoseReady, Before, Distinct, Elements, Settle;
    var r := a.reg;
    if a.phase.Running? && MayDisable(r, name) {
      var s := RequestStop(r.plugins[name].state);
      var t := if r.IsReady(name) then LoseReady(r, name, s) else r.SetState(name, s);
      if r.IsReady(name) {
        LoseReadyKeeps(r, r.order, name, s);
        LoseReadyFacts(r, name, s);
      }
      assert forall q :: t.IsReady(q) ==> r.IsReady(q) && t.plugins[q].hard == r.plugins[q].hard;
      forall q, d | t.IsReady(q) && d in t.plugins[q].hard
        ensures t.IsReady(d) && Before(r.order, d, q)
      {
        assert r.IsReady(d);
      }
      SettleKeeps(t, name, stop);
    }
  }

  lemma RemoveKeeps(t: Registry, name: Name)
    requires t.Valid() && Supported(t, t.order) && name in t.plugins && !t.IsReady(name)
    ensures t.Remove(name).Valid() && Supported(t.Remove(name), t.Remove(name).order)
  {
    hide Before, Keep, Distinct, Elements;
    var u, kept := t.Remove(name), Elements(t.order) - {name};
    KeepDistinct(t.order, kept);
    KeepElements(t.order, kept);
    assert u.plugins.Keys == kept;
    forall q, d | u.IsReady(q) && d in u.plugins[q].hard ensures u.IsReady(d) {
      assert t.IsReady(q) && t.IsReady(d);
    }
    KeepSupported(t, u, t.order);
  }

  lemma SettleKeeps(t: Registry, name: Name, stop: StopResult)
    requires t.Valid() && Supported(t, t.order) && name in t.plugins && !t.IsReady(name)
    ensures Settle(t, name, stop).Valid() && Supported(Settle(t, name, stop), Settle(t, name, stop).order)
  {
    hide Before;
    var u := Settle(t, name, stop);
    if stop == StopClean {
      RemoveKeeps(t, name);
    } else {
      forall q, d | u.IsReady(q) && d in u.plugins[q].hard
        ensures u.IsReady(d) && Before(u.order, d, q)
      {
        assert t.IsReady(q) && t.IsReady(d);
      }
    }
  }

  lemma StepKeeps(a: App, act: Action)
    requires AppInv(a) && act.Valid()
    ensures AppInv(Apply(a, act))
  {
    hide AppInv, Apply;
    match act
    case Turn(deadline, attempt) => TurnKeeps(a, deadline, attempt);
    case Finish => FinishKeeps(a);
    case Lost(name, left) => LostKeeps(a, name, left);
    case Enable(name, instance, attempt) => EnableKeeps(a, name, instance, attempt);
    case Disable(name, stop) => DisableKeeps(a, name, stop);
  }

  /** The application when its startup loop begins. */
  ghost function Boot(loaded: Registry): App
    requires loaded.Valid()
  {
    App(Prepared(loaded), Booting(StartList(loaded), 0))
  }

  /**
   * In every state of every run, each ready plugin has all its hard
   * dependencies registered, ready and earlier in the order.
   */
  lemma {:induction false} RunKeeps(a: App, acts: seq<Action>)
    requires AppInv(a) && forall i :: 0 <= i < |acts| ==> acts[i].Valid()
    ensures AppInv(Run(a, acts))
    decreases |acts|
  {
    if acts != [] {
      StepKeeps(a, acts[0]);
      hide AppInv, Apply;
      RunKeeps(Apply(a, acts[0]), acts[1..]);
    }
  }

  lemma EveryRunSupported(loaded: Registry, acts: seq<Action>)
    requires Loaded(loaded) && forall i :: 0 <= i < |acts| ==> acts[i].Valid()
    ensures AppInv(Run(Boot(loaded), acts))
  {
    hide Prepared, StartList, Before, Run, Reach, OnCycle, PlanOf, Checked, HardGraph;
    StartListNames(loaded);
    PreparedFacts(loaded);
    PreparedValid(loaded);
    assert BootInv(Boot(loaded));
    RunKeeps(Boot(loaded), acts);
  }

  lemma {:induction false} RunSnoc(a: App, acts: seq<Action>, act: Action)
    ensures Run(a, acts + [act]) == Apply(Run(a, acts), act)
    decreases |acts|
  {
    hide Apply;
    if acts == [] {
      assert [act][1..] == [] && [] + [act] == [act];
      assert Run(Apply(a, act), []) == Apply(a, act);
    } else {
      assert (acts + [act])[0] == acts[0] && (acts + [act])[1..] == acts[1..] + [act];
      RunSnoc(Apply(a, acts[0]), acts[1..], act);
    }
  }

  /** The actions of a startup that nothing disturbs: one turn for each name. */
  function StartupTurns(order: seq<Name>, env: Env): seq<Action> {
    seq(|order|, i requires 0 <= i < |order| => Turn(env.deadline(order[i]), env.attempt(order[i])))
  }

  lemma {:induction false} TurnsRun(r: Registry, order: seq<Name>, env: Env, k: nat)
    requires k <= |order| && Distinct(order) && Elements(order) <= r.plugins.Keys
    ensures Run(App(r, Booting(order, 0)), StartupTurns(order, env)[..k]) ==
            App(AfterTurns(r, order, env, k), Booting(order, k))
  {
    hide StartOne, Distinct, Elements;
    var turns := StartupTurns(order, env);
    if k == 0 {
      assert turns[..0] == [];
    } else {
      TurnsRun(r, order, env, k - 1);
      RunSnoc(App(r, Booting(order, 0)), turns[..k - 1], turns[k - 1]);
      assert turns[..k] == turns[..k - 1] + [turns[k - 1]];
      hide Run;
      assert order[k - 1] in AfterTurns(r, order, env, k - 1).plugins;
    }
  }

  /** Startup as a whole is the run of its turns in start order, and leaves the running application. */
  lemma StartupIsRun(loaded: Registry, env: Env)
    requires Loaded(loaded) && env.Valid()
    ensures Run(Boot(loaded), StartupTurns(StartList(loaded), env) + [Finish]) == App(Startup(loaded, env), Running)
    ensures Startup(loaded, env).Valid() && Supported(Startup(loaded, env), Startup(loaded, env).order)
  {
    hide Prepared, StartList, Startup, Run, Registry.Valid, Supported;
    StartupEnds(loaded, env);
    EveryRunSupported(loaded, StartupTurns(StartList(loaded), env) + [Finish]);
  }

  lemma StartupEnds(loaded: Registry, env: Env)
    requires Loaded(loaded)
    ensures Run(Boot(loaded), StartupTurns(StartList(loaded), env) + [Finish]) == App(Startup(loaded, env), Running)
  {
    hide Prepared, StartList, Supported, Distinct, Elements, Run, AfterTurns, Keep;
    StartListNames(loaded);
    PreparedKeys(loaded);
    var order := StartList(loaded);
    var turns := StartupTurns(order, env);
    TurnsRun(Prepared(loaded), order, env, |order|);
    assert turns[..|order|] == turns;
    RunSnoc(Boot(loaded), turns, Finish);
  }

  lemma PreparedKeys(loaded: Registry)
    requires Loaded(loaded)
    ensures Prepared(loaded).plugins.Keys == loaded.plugins.Keys
  {
    hide Prepared, Unstarted, HardGraph, HardEdges, OnCycle;
    PreparedFacts(loaded);
  }

  /** The hard edges that count for cycles: between registered plugins, and none from a blocked one. */
  lemma HardEdgesExact(loaded: Registry, u: Name, v: Name)
    requires Loaded(loaded)
    ensures Edge(HardEdges(Checked(loaded)), u, v) <==>
            u in loaded.plugins && v in loaded.plugins && loaded.plugins[u].validMetadata
            && v in loaded.plugins[u].hard
  {
  }

  /** The edges that order the start: hard and soft ones of well-described plugins, between plugins on no hard cycle. */
  lemma WalkedExact(loaded: Registry, u: Name, v: Name)
    requires Loaded(loaded)
    ensures Edge(WalkedGraph(loaded), u, v) <==>
            u in loaded.plugins && v in loaded.plugins && loaded.plugins[u].validMetadata
            && !OnCycle(HardEdges(Checked(loaded)), u) && !OnCycle(HardEdges(Checked(loaded)), v)
            && (v in loaded.plugins[u].hard || v in loaded.plugins[u].soft)
  {
    hide OnCycle, HardEdges;
    StartListNames(loaded);
    assert Elements(loaded.order) == loaded.plugins.Keys;
  }

  /** So no ready plugin lies on a cycle of hard dependencies among ready plugins. */
  lemma ReadyAcyclic(r: Registry, u: Name)
    requires r.Valid() && Supported(r, r.order)
    ensures !OnCycle(ReadyGraph(r), u)
  {
    if OnCycle(ReadyGraph(r), u) {
      var v :| Edge(ReadyGraph(r), u, v) && Reach(ReadyGraph(r), v, u);
      var p :| IsPath(ReadyGraph(r), p, v, u);
      assert Before(r.order, v, u);
      var k :| 0 <= k < |r.order| && r.order[k] == u && v in r.order[..k];
      PathGoesDown(r, p, v, u, k);
    }
  }

  lemma {:induction false} PathGoesDown(r: Registry, p: seq<Name>, v: Name, u: Name, k: nat)
    requires r.Valid() && Supported(r, r.order) && k < |r.order|
    requires IsPath(ReadyGraph(r), p, v, u) && v in r.order[..k]
    ensures u in r.order[..k]
    decreases |p|
  {
    if |p| > 1 {
      assert Edge(ReadyGraph(r), p[0], p[1]);
      assert Before(r.order, p[1], v);
      var i :| 0 <= i < |r.order| && r.order[i] == v && p[1] in r.order[..i];
      var j :| 0 <= j < |r.order[..k]| && r.order[..k][j] == v;
      assert i == j;
      var m :| 0 <= m < |r.order[..i]| && r.order[..i][m] == p[1];
      assert r.order[..k][m] == p[1];
      PathGoesDown(r, p[1..], p[1], u, k);
    }
  }

  function Reversed(s: seq<Name>): seq<Name> {
    if s == [] then [] else Reversed(s[1..]) + [s[0]]
  }

  lemma {:induction false} ReversedBefore(s: seq<Name>, v: Name, u: Name)
    requires Before(s, v, u)
    ensures Before(Reversed(s), u, v)
  {
    var k :| 0 <= k < |s| && s[k] == u && v in s[..k];
    var r := Reversed(s[1..]);
    assert s[1..][k - 1] == u;
    if s[0] == v {
      ReversedElements(s[1..], u);
      assert Reversed(s)[|r|] == v && Reversed(s)[..|r|] == r;
    } else {
      assert s[..k] == [s[0]] + s[1..][..k - 1];
      ReversedBefore(s[1..], v, u);
      BeforeExtends(r, Reversed(s), u, v);
    }
  }

  lemma {:induction false} ReversedElements(s: seq<Name>, x: Name)
    ensures x in s <==> x in Reversed(s)
  {
    if s != [] {
      ReversedElements(s[1..], x);
      assert s == [s[0]] + s[1..];
    }
  }

  /** Shutdown walks the registry backwards, so dependents stop before their providers. */
  lemma ShutdownOrder(r: Registry, q: Name, d: Name)
    requires Supported(r, r.order) && r.IsReady(q) && d in r.plugins[q].hard
    ensures Before(Reversed(r.order), q, d)
  {
    ReversedBefore(r.order, d, q);
  }

  lemma {:induction false} ReversedDistinct(s: seq<Name>)
    requires Distinct(s)
    ensures Distinct(Reversed(s))
  {
    if s != [] {
      ReversedDistinct(s[1..]);
      ReversedElements(s[1..], s[0]);
    }
  }

  /** What `shutdown` leaves of one plugin; `late` says that the global budget is used up. */
  function AfterShutdownTurn(s: PluginState, late: bool, stop: StopResult): PluginState {
    if late || s == Hung then Hung
    else if s == Blocked then Stopped
    else match stop
      case StopHangs => Hung
      case StopRaises => Failed
      case StopClean => if s == Failed then Failed else Stopped
  }

  /** The registry after `k` turns of the shutdown loop; the budget runs out at turn `cut`. */
  ghost function AfterShutdownTurns(r: Registry, todo: seq<Name>, cut: nat, stop: Name -> StopResult, k: nat)
    : (t: Registry)
    requires k <= |todo| && forall i :: 0 <= i < |todo| ==> todo[i] in r.plugins
    ensures t.plugins.Keys == r.plugins.Keys && t.order == r.order
  {
    if k == 0 then r
    else
      var t := AfterShutdownTurns(r, todo, cut, stop, k - 1);
      var name := todo[k - 1];
      t.SetState(name, AfterShutdownTurn(t.plugins[name].state, cut <= k - 1, stop(name)))
  }

  lemma ShutdownStep(r: Registry, todo: seq<Name>, cut: nat, stop: Name -> StopResult, k: nat)
    requires k <= |todo| && forall i :: 0 <= i < |todo| ==> todo[i] in r.plugins
    ensures AfterShutdownTurns(r, todo, cut, stop, 0) == r
    ensures k < |todo| ==>
      var t := AfterShutdownTurns(r, todo, cut, stop, k);
      AfterShutdownTurns(r, todo, cut, stop, k + 1) == t.SetState(todo[k],
        AfterShutdownTurn(t.plugins[todo[k]].state, cut <= k, stop(todo[k])))
  {
  }

  lemma {:induction false} ReadyAfterShutdownTurns(r: Registry, todo: seq<Name>, cut: nat, stop: Name -> StopResult,
                                                   k: nat, q: Name)
    requires k <= |todo| && forall i :: 0 <= i < |todo| ==> todo[i] in r.plugins
    ensures var t := AfterShutdownTurns(r, todo, cut, stop, k);
      && (t.IsReady(q) <==> r.IsReady(q) && q !in todo[..k])
      && (q in r.plugins ==> t.plugins[q].hard == r.plugins[q].hard)
  {
    hide AfterShutdownTurns;
    ShutdownStep(r, todo, cut, stop, if k > 0 then k - 1 else 0);
    if k > 0 {
      ReadyAfterShutdownTurns(r, todo, cut, stop, k - 1, q);
      assert todo[..k] == todo[..k - 1] + [todo[k - 1]];
    }
  }

  /**
   * At every point of shutdown, also past its deadline, a plugin that is still
   * ready has all its hard dependencies ready; at the end nothing is.
   */
  lemma ShutdownKeepsSupport(r: Registry, cut: nat, stop: Name -> StopResult, k: nat, q: Name, d: Name)
    requires r.Valid() && Supported(r, r.order) && k <= |Reversed(r.order)|
    ensures forall n :: n in Reversed(r.order) ==> n in r.plugins
    ensures var t := AfterShutdownTurns(r, Reversed(r.order), cut, stop, k);
      && (t.IsReady(q) && d in t.plugins[q].hard ==> t.IsReady(d))
      && (k == |Reversed(r.order)| ==> !t.IsReady(q))
  {
    hide AfterShutdownTurns, Reversed, Before, Distinct, Registry.Valid;
    var todo := Reversed(r.order);
    ReversedNames(r);
    ReadyAfterShutdownTurns(r, todo, cut, stop, k, q);
    ReadyAfterShutdownTurns(r, todo, cut, stop, k, d);
    assert k == |todo| ==> todo[..k] == todo;
    if r.IsReady(q) && d in r.plugins[q].hard && q !in todo[..k] {
      ShutdownOrder(r, q, d);
      NotBefore(todo, q, d, k);
    }
  }

  lemma ReversedNames(r: Registry)
    requires r.Valid()
    ensures Distinct(Reversed(r.order))
    ensures forall n :: n in Reversed(r.order) <==> n in r.plugins
  {
    ReversedDistinct(r.order);
    forall n ensures n in Reversed(r.order) <==> n in r.plugins {
      ReversedElements(r.order, n);
      assert n in Elements(r.order) <==> n in r.order;
    }
  }

  lemma NotBefore(todo: seq<Name>, q: Name, d: Name, k: nat)
    requires Distinct(todo) && k <= |todo| && Before(todo, q, d) && q !in todo[..k]
    ensures d !in todo[..k]
  {
    var m :| 0 <= m < |todo| && todo[m] == d && q in todo[..m];
    var i :| 0 <= i < |todo[..m]| && todo[..m][i] == q;
    assert i >= k by {
      assert forall j :: 0 <= j < k ==> todo[..k][j] != q;
    }
    forall j | 0 <= j < k ensures todo[..k][j] != d {
      assert j < i < m;
    }
  }

  // ---------------------------------------------------------------- what each operation does

  /** `t` is `r` with one more plugin, at the end and in the given state. */
  ghost predicate Appended(r: Registry, t: Registry, name: Name, instance: Plugin, s: PluginState) {
    && t.order == r.order + [name] && t.plugins.Keys == r.plugins.Keys + {name}
    && t.plugins[name] == instance.(state := s)
    && forall q :: q in r.plugins && q != name ==> t.plugins[q] == r.plugins[q]
  }

  /** A hot enable gets as far as migrating and starting the instance. */
  ghost predicate Admitted(r: Registry, name: Name, instance: Plugin) {
    name !in r.plugins && instance.validMetadata && forall d :: d in instance.hard ==> r.IsReady(d)
  }

  /**
   * How each ending of an enable leaves the registry: a started plugin is ready
   * at the end of it; a blocked, failed or hung instance stays registered; after
   * a refusal, or a failed start that was stopped cleanly, nothing has changed.
   */
  lemma EnableExact(r: Registry, name: Name, instance: Plugin, a: Attempt)
    requires instance.state == Discovered
    ensures var t := EnableIn(r, name, instance, a);
      && (Admitted(r, name, instance) ==>
            && (a == Started ==> Appended(r, t, name, instance, Ready) && t.IsReady(name))
            && (a.StartedNotReady? ==> Appended(r, t, name, instance, a.left))
            && (a == MigrationFails ==> Appended(r, t, name, instance, Blocked))
            && (a == StartHung || a == StartFailed(StopHangs) ==> Appended(r, t, name, instance, Hung))
            && (a == StartFailed(StopRaises) ==> Appended(r, t, name, instance, Failed))
            && (a == StartFailed(StopClean) ==> t == r))
      && (name !in r.plugins && !instance.validMetadata ==> Appended(r, t, name, instance, Blocked))
      && (!Admitted(r, name, instance) && (name in r.plugins || instance.validMetadata) ==> t == r)
  {
  }

  /** An instance left registered, in whatever state, makes any later enable of its name change nothing. */
  lemma SecondEnableRefused(r: Registry, name: Name, instance: Plugin, a: Attempt, other: Plugin, b: Attempt)
    requires instance.state == Discovered && other.state == Discovered && name !in r.plugins
    ensures var t := EnableIn(r, name, instance, a);
      && (name in t.plugins ==> EnableIn(t, name, other, b) == t)
      && (name in t.plugins <==>
            !instance.validMetadata || (Admitted(r, name, instance) && a != StartFailed(StopClean)))
  {
    EnableExact(r, name, instance, a);
    EnableExact(EnableIn(r, name, instance, a), name, other, b);
    hide EnableIn;
  }

  /**
   * How each ending of a disable leaves the registry: refused when the plugin is
   * unknown, hung or needed by a ready one; after a clean stop it is gone, after
   * another it stays as failed or hung; no other plugin changes.
   */
  lemma DisableExact(r: Registry, name: Name, stop: StopResult)
    requires r.Valid()
    ensures var t := DisableIn(r, name, stop);
      var allowed := name in r.plugins && r.plugins[name].state != Hung
        && forall q :: r.IsReady(q) ==> name !in r.plugins[q].hard;
      && (!allowed ==> t == r)
      && (allowed && stop == StopClean ==> OnlyWithout(r, t, name))
      && (allowed && stop == StopRaises ==> OnlyState(r, t, name, Failed))
      && (allowed && stop == StopHangs ==> OnlyState(r, t, name, Hung))
  {
    hide LoseReady, Settle, MayDisable, OnlyState, OnlyWithout, Registry.Valid;
    MayDisableMeans(r, name);
    if MayDisable(r, name) {
      var s := RequestStop(r.plugins[name].state);
      var t := if r.IsReady(name) then LoseReady(r, name, s) else r.SetState(name, s);
      StoppingExact(r, name);
      StateThenSettle(r, t, name, s, stop);
    }
  }

  /** Settling a plugin whose state was changed before leaves no trace of that state. */
  lemma StateThenSettle(r: Registry, t: Registry, name: Name, s: PluginState, stop: StopResult)
    requires r.Valid() && OnlyState(r, t, name, s)
    ensures stop == StopClean ==> OnlyWithout(r, Settle(t, name, stop), name)
    ensures stop == StopRaises ==> OnlyState(r, Settle(t, name, stop), name, Failed)
    ensures stop == StopHangs ==> OnlyState(r, Settle(t, name, stop), name, Hung)
  {
    hide Settle, Before, Distinct, Elements;
    SettleExact(t, name, stop);
  }

  lemma MayDisableMeans(r: Registry, name: Name)
    ensures MayDisable(r, name) <==>
      name in r.plugins && r.plugins[name].state != Hung && forall q :: r.IsReady(q) ==> name !in r.plugins[q].hard
  {
    assert forall q :: q in ReadyDependents(r, name) <==> r.IsReady(q) && name in r.plugins[q].hard;
  }

  /** A turn of the startup loop has the outcome of starting its plugin, and moves on. */
  lemma TurnExact(a: App, deadline: bool, attempt: Attempt)
    requires AppInv(a) && a.phase.Booting? && a.phase.next < |a.phase.rank|
    ensures var name, t := a.phase.rank[a.phase.next], Apply(a, Turn(deadline, attempt));
      && t.phase == Booting(a.phase.rank, a.phase.next + 1)
      && (!Tried(a.reg, name, deadline, attempt) ==> OnlyState(a.reg, t.reg, name, Blocked))
      && (Tried(a.reg, name, deadline, attempt) && !Dropped(attempt) ==>
            OnlyState(a.reg, t.reg, name, Ended(attempt)))
      && (Tried(a.reg, name, deadline, attempt) && Dropped(attempt) ==> OnlyWithout(a.reg, t.reg, name))
  {
    hide StartOne, Supported, Tried, OnlyState, OnlyWithout;
    StartOneExact(a.reg, a.phase.rank[a.phase.next], deadline, attempt);
  }

  /** After its last turn startup puts the registry in start order and changes no plugin. */
  lemma FinishExact(a: App)
    requires AppInv(a) && a.phase.Booting? && a.phase.next == |a.phase.rank|
    ensures var t := Apply(a, Finish);
      && t.phase == Running && t.reg.plugins == a.reg.plugins && t.reg.Valid()
      && forall v, u :: v in a.reg.plugins && u in a.reg.plugins && Before(a.phase.rank, v, u) ==>
           Before(t.reg.order, v, u)
  {
    FinishKeeps(a);
    hide Before, Keep, Supported, Distinct, Elements;
    forall v, u | v in a.reg.plugins && u in a.reg.plugins && Before(a.phase.rank, v, u)
      ensures Before(Keep(a.phase.rank, a.reg.plugins.Keys), v, u)
    {
      KeepBefore(a.phase.rank, a.reg.plugins.Keys, v, u);
    }
  }

  /** A ready plugin that leaves READY, at any time, blocks exactly the ready plugins with a hard path to it. */
  lemma LostExact(a: App, name: Name, left: PluginState, q: Name)
    requires AppInv(a) && a.reg.IsReady(name) && left != Ready && q in a.reg.plugins
    ensures var r, t := a.reg, Apply(a, Lost(name, left));
      && t.phase == a.phase && t.reg.order == r.order && t.reg.plugins.Keys == r.plugins.Keys
      && t.reg.plugins[q] ==
         if q == name then r.plugins[q].(state := left)
         else if r.IsReady(q) && Reach(HardGraph(r), q, name) then r.plugins[q].(state := Blocked)
         else r.plugins[q]
  {
    LoseReadyExact(a.reg, if a.phase.Booting? then a.phase.rank else a.reg.order, name, left, q);
    hide LoseReady, Supported, Reach;
  }

  /** Enable and disable act on the running application only, and there they have their outcomes. */
  lemma CommandExact(a: App, name: Name, instance: Plugin, attempt: Attempt, stop: StopResult)
    requires AppInv(a) && instance.state == Discovered
    ensures var e, d := Apply(a, Enable(name, instance, attempt)), Apply(a, Disable(name, stop));
      if !a.phase.Running? then e == a && d == a
      else
        && e.phase == a.phase && d.phase == a.phase
        && (Admitted(a.reg, name, instance) && attempt == Started ==>
              Appended(a.reg, e.reg, name, instance, Ready))
        && (name in e.reg.plugins <==>
              name in a.reg.plugins || !instance.validMetadata
              || (Admitted(a.reg, name, instance) && attempt != StartFailed(StopClean)))
        && (MayDisable(a.reg, name) && stop == StopClean ==> OnlyWithout(a.reg, d.reg, name))
        && (MayDisable(a.reg, name) && stop != StopClean ==>
              OnlyState(a.reg, d.reg, name, if stop == StopRaises then Failed else Hung))
        && (!MayDisable(a.reg, name) ==> d == a)
  {
    hide Supported, EnableIn, DisableIn, MayDisable, OnlyState, OnlyWithout;
    if a.phase.Running? {
      EnableExact(a.reg, name, instance, attempt);
      if name !in a.reg.plugins {
        SecondEnableRefused(a.reg, name, instance, attempt, instance, attempt);
      }
      MayDisableMeans(a.reg, name);
      DisableExact(a.reg, name, stop);
    }
  }

  /** Asking a plugin that nothing ready needs to stop changes that plugin only. */
  lemma StoppingExact(r: Registry, name: Name)
    requires MayDisable(r, name)
    ensures var s := RequestStop(r.plugins[name].state);
      OnlyState(r, if r.IsReady(name) then LoseReady(r, name, s) else r.SetState(name, s), name, s)
  {
    DisableBlocksNothing(r, name);
    hide Dependents, MayDisable;
  }

  lemma SettleExact(t: Registry, name: Name, stop: StopResult)
    requires t.Valid() && name in t.plugins
    ensures stop == StopClean ==> OnlyWithout(t, Settle(t, name, stop), name)
    ensures stop == StopRaises ==> OnlyState(t, Settle(t, name, stop), name, Failed)
    ensures stop == StopHangs ==> OnlyState(t, Settle(t, name, stop), name, Hung)
  {
    hide OnlyWithout, Registry.Valid, Registry.Remove;
    if stop == StopClean {
      RemoveIsWithout(t, name);
    }
  }

  /** The names still to come and already dealt with, in a shutdown. */
  lemma {:induction false} StateAfterShutdownTurns(r: Registry, todo: seq<Name>, cut: nat, stop: Name -> StopResult,
                                                   k: nat, i: nat)
    requires k <= |todo| && i < |todo| && Distinct(todo) && forall j :: 0 <= j < |todo| ==> todo[j] in r.plugins
    ensures var t, s := AfterShutdownTurns(r, todo, cut, stop, k), r.plugins[todo[i]].state;
      t.plugins[todo[i]] == r.plugins[todo[i]].(state :=
        if k <= i then s else AfterShutdownTurn(s, cut <= i, stop(todo[i])))
  {
    hide AfterShutdownTurns, AfterShutdownTurn;
    ShutdownStep(r, todo, cut, stop, if k > 0 then k - 1 else 0);
    if k > 0 {
      StateAfterShutdownTurns(r, todo, cut, stop, k - 1, i);
      assert i != k - 1 ==> todo[i] != todo[k - 1];
    }
  }

  /**
   * How shutdown leaves each plugin: hung if the budget ran out before its turn,
   * if it was hung or if its stop hangs; a blocked one is stopped without being
   * asked; otherwise it is failed or stopped.
   */
  lemma ShutdownExact(r: Registry, cut: nat, stop: Name -> StopResult, i: nat)
    requires r.Valid() && i < |Reversed(r.order)|
    ensures forall n :: n in Reversed(r.order) <==> n in r.plugins
    ensures var name := Reversed(r.order)[i];
      var s := r.plugins[name].state;
      var last := AfterShutdownTurns(r, Reversed(r.order), cut, stop, |Reversed(r.order)|).plugins[name];
      && last == r.plugins[name].(state := last.state)
      && (last.state == Hung <==> cut <= i || s == Hung || (s != Blocked && stop(name) == StopHangs))
      && (last.state == Failed <==>
          i < cut && s !in {Hung, Blocked} && (stop(name) == StopRaises || (stop(name) == StopClean && s == Failed)))
      && last.state in {Hung, Failed, Stopped}
  {
    ReversedNames(r);
    hide AfterShutdownTurns, Reversed;
    StateAfterShutdownTurns(r, Reversed(r.order), cut, stop, |Reversed(r.order)|, i);
  }

  // ---------------------------------------------------------------- the application object

  /** The registry fields of `ReticulumPiApp`, changed in place. */
  class ReticulumPiApp {
    var order: seq<Name>
    var plugins: map<Name, Plugin>
    var shuttingDown: bool
    var cycles: map<Name, seq<Name>>

    ghost function View(): Registry
      reads this
    {
      Registry(order, plugins)
    }

    constructor (loaded: Registry)
      ensures View() == loaded && !shuttingDown
    {
      order, plugins, shuttingDown, cycles := loaded.order, loaded.plugins, false, map[];
    }

    /** Mark the named plugins blocked, one after the other. */
    method MarkAllBlocked(names: seq<Name>)
      requires Distinct(names) && Elements(names) <= plugins.Keys
      requires forall n :: n in names ==> plugins[n].state in {Discovered, Blocked}
      modifies this`plugins
      ensures View() == BlockAll(old(View()), Elements(names))
    {
      ghost var r := View();
      var i := 0;
      while i < |names|
        invariant i <= |names|
        invariant plugins == BlockAll(r, Elements(names[..i])).plugins
      {
        assert names[..i + 1] == names[..i] + [names[i]];
        ElementsConcat(names[..i], [names[i]]);
        plugins := plugins[names[i] := plugins[names[i]].(state := MarkBlocked(plugins[names[i]].state))];
        i := i + 1;
      }
      assert names[..|names|] == names;
    }

    /** `_topo_sort_plugins`: records the hard cycles and returns the start order. */
    method TopoSort() returns (list: seq<Name>)
      requires View().Valid()
      modifies this`cycles
      ensures cycles.Keys == Cyclic(View())
      ensures forall x :: x in cycles ==> Tarjan.IsComponent(HardEdges(View()), cycles[x], x)
      ensures PlanOf(View()).Valid() && list == Order(PlanOf(View()))
    {
      var g := HardEdges(Registry(order, plugins));
      hide OnCycle, Tarjan.IsComponent, Keep;
      cycles := Tarjan.CycleMap(g, order);
      var p := Plan(order, Declared(Registry(order, plugins), false),
                    Declared(Registry(order, plugins), true), cycles.Keys);
      assert p == PlanOf(View());
      list := StartOrderOf(p);
    }

    /** `_block_invalid_plugin_metadata`. */
    method BlockInvalidMetadata()
      requires Loaded(View())
      modifies this`plugins
      ensures View() == Checked(old(View()))
    {
      ghost var loaded := View();
      var invalid := Keep(order, Invalid(Registry(order, plugins)));
      KeepDistinct(order, Invalid(loaded));
      assert Elements(invalid) == Invalid(loaded);
      MarkAllBlocked(invalid);
    }

    /** `_block_dependency_cycles`. */
    method BlockDependencyCycles()
      requires View().Valid() && Unstarted(View()) && cycles.Keys <= plugins.Keys
      modifies this`plugins
      ensures View() == BlockAll(old(View()), cycles.Keys)
    {
      var cyclic := Keep(order, cycles.Keys);
      KeepDistinct(order, cycles.Keys);
      assert Elements(cyclic) == cycles.Keys;
      MarkAllBlocked(cyclic);
    }

    /** `start`, from the loaded registry to the registry in start order. */
    method Start(env: Env)
      requires Loaded(View()) && env.Valid()
      modifies this
      ensures View() == Startup(old(View()), env)
    {
      hide OnCycle, Order, Tarjan.IsComponent, HardEdges, Startup, HardGraph, BlockAll, Declared;
      ghost var loaded := View();
      BlockInvalidMetadata();
      BlockAllFacts(loaded, Invalid(loaded));
      var list := TopoSort();
      StartListNames(loaded);
      BlockDependencyCycles();
      BlockAllFacts(Checked(loaded), Cyclic(Checked(loaded)));
      StartLoop(list, env, loaded);
    }

    method StartLoop(list: seq<Name>, env: Env, ghost loaded: Registry)
      requires Loaded(loaded) && View() == Prepared(loaded)
      requires list == StartList(loaded) && Distinct(list) && Elements(list) == plugins.Keys
      modifies this
      ensures View() == Startup(loaded, env)
    {
      hide Prepared, StartList, StartOne;
      ghost var r := View();
      var i := 0;
      while i < |list|
        invariant i <= |list|
        invariant View() == AfterTurns(r, list, env, i)
      {
        var name := list[i];
        var t := StartOne(Registry(order, plugins), name, env.deadline(name), env.attempt(name));
        order, plugins := t.order, t.plugins;
        i := i + 1;
      }
      order := Keep(list, plugins.Keys);
    }

    /** `_on_plugin_ready_lost`: the provider has left READY; block dependents to a fixpoint. */
    method OnPluginReadyLost(provider: Name)
      requires View().Valid() && provider in plugins && plugins[provider].state != Ready
      modifies this`plugins
      ensures View() == if shuttingDown then old(View())
                        else BlockAll(old(View()), Dependents(old(View()), provider))
    {
      hide BlockAll, Dependents, SettledFor, Distinct;
      if shuttingDown {
        return;
      }
      ghost var r := View();
      var unavailable := {provider};
      var changed := true;
      BlockNone(r);
      assert unavailable - {provider} == {};
      while changed
        invariant order == r.order && provider in unavailable && unavailable <= r.plugins.Keys
        invariant unavailable - {provider} <= Dependents(r, provider)
        invariant plugins == BlockAll(r, unavailable - {provider}).plugins
        invariant !changed ==> SettledFor(r, unavailable, r.order)
        decreases r.plugins.Keys - unavailable, changed
      {
        changed := false;
        ghost var before := unavailable;
        var i := 0;
        SettledNone(r, unavailable);
        while i < |order|
          invariant i <= |order| && order == r.order && provider in unavailable && unavailable <= r.plugins.Keys
          invariant before <= unavailable && (changed <==> before != unavailable)
          invariant unavailable - {provider} <= Dependents(r, provider)
          invariant plugins == BlockAll(r, unavailable - {provider}).plugins
          invariant !changed ==> SettledFor(r, unavailable, r.order[..i])
        {
          var name := order[i];
          assert name in Elements(order);
          BlockAllFacts(r, unavailable - {provider});
          SettledOneMore(r, unavailable, i);
          if name !in unavailable && plugins[name].state == Ready
             && exists d :: d in plugins[name].hard && d in unavailable
          {
            DependentStep(r, provider, unavailable, name);
            assert (unavailable + {name}) - {provider} == (unavailable - {provider}) + {name};
            BlockOneMore(r, unavailable - {provider}, name);
            plugins := plugins[name := plugins[name].(state := Blocked)];
            unavailable := unavailable + {name};
            changed := true;
          }
          i := i + 1;
        }
        assert r.order[..i] == r.order;
      }
      FixpointExact(r, provider, unavailable);
      BlockAllFacts(r, Dependents(r, provider));
    }

    /** `enable_plugin`: refused while shutting down. */
    method EnablePlugin(name: Name, instance: Plugin, attempt: Attempt) returns (enabled: bool)
      requires instance.state == Discovered
      modifies this`order, this`plugins
      ensures View() == if shuttingDown then old(View()) else EnableIn(old(View()), name, instance, attempt)
      ensures enabled <==>
        !shuttingDown && Admitted(old(View()), name, instance) && (attempt == Started || attempt.StartedNotReady?)
      ensures enabled && attempt == Started ==>
        order == old(order) + [name] && plugins == old(plugins)[name := instance.(state := Ready)]
    {
      enabled := false;
      if shuttingDown || name in plugins {
        return;
      }
      var r := Registry(order, plugins);
      if !instance.validMetadata {
        order, plugins := order + [name], plugins[name := instance.(state := MarkBlocked(instance.state))];
        return;
      }
      if r.HardProblem(instance) {
        return;
      }
      var left;
      match attempt {
        case MigrationFails => left := MarkBlocked(instance.state);
        case Started => left := Ready; enabled := true;
        case StartedNotReady(s) => left := s; enabled := true;
        case StartHung => left := Hung;
        case StartFailed(stop) =>
          if stop == StopClean {
            return;
          }
          left := if stop == StopRaises then Failed else Hung;
      }
      order, plugins := order + [name], plugins[name := instance.(state := left)];
    }

    /** `shutdown`: the first call deals with every plugin, dependents before providers. */
    method Shutdown(cut: nat, stop: Name -> StopResult)
      requires View().Valid()
      modifies this`plugins, this`shuttingDown
      ensures shuttingDown
      ensures forall n :: n in Reversed(order) ==> n in old(plugins)
      ensures View() == if old(shuttingDown) then old(View())
                        else AfterShutdownTurns(old(View()), Reversed(order), cut, stop, |Reversed(order)|)
    {
      hide Reversed, AfterShutdownTurn, AfterShutdownTurns, Distinct, Registry.Valid;
      ghost var r := View();
      ReversedNames(r);
      if shuttingDown {
        return;
      }
      shuttingDown := true;
      var todo := Reversed(order);
      var i := 0;
      ShutdownStep(r, todo, cut, stop, 0);
      while i < |todo|
        invariant i <= |todo| && shuttingDown && View() == AfterShutdownTurns(r, todo, cut, stop, i)
      {
        var name := todo[i];
        ShutdownStep(r, todo, cut, stop, i);
        plugins := plugins[name := plugins[name].(state :=
                     AfterShutdownTurn(plugins[name].state, cut <= i, stop(name)))];
        i := i + 1;
      }
    }

    /** `disable_plugin`: refused while shutting down, hung, or needed by a ready plugin. */
    method DisablePlugin(name: Name, stop: StopResult) returns (disabled: bool)
      requires View().Valid()
      modifies this`order, this`plugins
      ensures View() == if shuttingDown then old(View()) else DisableIn(old(View()), name, stop)
      ensures disabled <==> !shuttingDown && MayDisable(old(View()), name) && stop == StopClean
    {
      disabled := false;
      if shuttingDown || !MayDisable(Registry(order, plugins), name) {
        return;
      }
      ghost var r := View();
      var wasReady := plugins[name].state == Ready;
      plugins := plugins[name := plugins[name].(state := RequestStop(plugins[name].state))];
      ghost var t := View();
      if wasReady {
        OnPluginReadyLost(name);
      }
      var after := Settle(Registry(order, plugins), name, stop);
      order, plugins := after.order, after.plugins;
      disabled := stop == StopClean;
    }
  }

  /** No ready plugin among `names` outside the set depends on a member of it. */
  ghost predicate SettledFor(r: Registry, unavailable: set<Name>, names: seq<Name>) {
    forall q, d :: q in names && r.IsReady(q) && q !in unavailable && d in r.plugins[q].hard ==> d !in unavailable
  }

  lemma BlockNone(r: Registry)
    ensures BlockAll(r, {}).plugins == r.plugins
  {
  }

  lemma BlockOneMore(r: Registry, names: set<Name>, name: Name)
    requires name in r.plugins && name !in names
    ensures BlockAll(r, names + {name}).plugins ==
            BlockAll(r, names).plugins[name := r.plugins[name].(state := Blocked)]
  {
  }

  lemma SettledNone(r: Registry, unavailable: set<Name>)
    ensures SettledFor(r, unavailable, r.order[..0])
  {
  }

  lemma SettledOneMore(r: Registry, unavailable: set<Name>, i: nat)
    requires i < |r.order| && r.order[i] in r.plugins
    ensures SettledFor(r, unavailable, r.order[..i])
      && !(r.order[i] !in unavailable && r.IsReady(r.order[i])
           && exists d :: d in r.plugins[r.order[i]].hard && d in unavailable)
      ==> SettledFor(r, unavailable, r.order[..i + 1])
  {
    assert r.order[..i + 1] == r.order[..i] + [r.order[i]];
  }

  lemma DependentStep(r: Registry, provider: Name, unavailable: set<Name>, name: Name)
    requires unavailable - {provider} <= Dependents(r, provider) && provider in unavailable
    requires r.IsReady(name) && name !in unavailable
    requires exists d :: d in r.plugins[name].hard && d in unavailable
    ensures name in Dependents(r, provider)
  {
    var d :| d in r.plugins[name].hard && d in unavailable;
    var g := ReadyGraph(r);
    assert Edge(g, name, d);
    ReachEdge(g, name, d);
    if d != provider {
      assert d in Dependents(r, provider);
      ReachTransitive(g, name, d, provider);
    }
  }

  lemma FixpointExact(r: Registry, provider: Name, unavailable: set<Name>)
    requires r.Valid() && provider in unavailable
    requires unavailable - {provider} <= Dependents(r, provider)
    requires SettledFor(r, unavailable, r.order)
    ensures unavailable - {provider} == Dependents(r, provider)
  {
    forall q | q in Dependents(r, provider) ensures q in unavailable {
      if q !in unavailable {
        var outside := r.plugins.Keys - unavailable;
        var a, b := Border(ReadyGraph(r), q, provider, outside);
        assert a in r.order by {
          assert a in Elements(r.order);
        }
        if b !in r.plugins {
          NoExit(r, b, provider);
        }
      }
    }
  }
}
