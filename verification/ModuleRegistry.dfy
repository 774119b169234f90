/**
 * The module registry: recursive start in dependency order, teardown in reverse.
 * What modules see is a trace of events, judged by an independent observer.
 */
module ModuleRegistry {
  import opened Common

  /** A factory stands for its module; instances are numbered as they are constructed. */
  type Factory = nat

  type Graph = Factory -> seq<Factory>

  datatype Event =
    | Constructed(f: Factory, instance: nat)
    | Started(f: Factory, instance: nat)      // the module's own Start
    | Registered(f: Factory, instance: nat)
    | Cleared(f: Factory, instance: nat)      // its handler is cleared and waited for
    | Stopped(f: Factory, instance: nat)      // the module's own Stop
    | Deleted(f: Factory, instance: nat)

  // ---------- The observer ----------

  datatype Progress = Progress(instance: nat, started: bool)

  /** What an observer of the events knows. */
  datatype World = World(
    pending: map<Factory, Progress>,    // constructed, not yet registered
    registered: map<Factory, nat>,
    cleared: set<Factory>,
    stopped: set<Factory>,
    seen: set<nat>)                     // every instance ever constructed

  const NOTHING := World(map[], map[], {}, {}, {})

  /** Every registered module that depends on `f` has been stopped. */
  predicate DependentsStopped(deps: Graph, w: World, f: Factory) {
    forall g :: g in w.registered && f in deps(g) ==> g in w.stopped
  }

  /** The rules: None if the event must not happen now. */
  function Observe(deps: Graph, w: World, e: Event): Option<World> {
    match e
    case Constructed(f, i) =>
      if f !in w.pending && f !in w.registered && i !in w.seen && w.cleared == w.stopped == {}
      then Some(w.(pending := w.pending[f := Progress(i, false)], seen := w.seen + {i}))
      else None
    case Started(f, i) =>
      if f in w.pending && w.pending[f] == Progress(i, false) && (forall d :: d in deps(f) ==> d in w.registered)
      then Some(w.(pending := w.pending[f := Progress(i, true)]))
      else None
    case Registered(f, i) =>
      if f in w.pending && w.pending[f] == Progress(i, true) && f !in w.registered
      then Some(w.(pending := w.pending - {f}, registered := w.registered[f := i]))
      else None
    case Cleared(f, i) =>
      if w.pending == map[] && f in w.registered && w.registered[f] == i && f !in w.cleared
         && DependentsStopped(deps, w, f)
      then Some(w.(cleared := w.cleared + {f}))
      else None
    case Stopped(f, i) =>
      if f in w.registered && w.registered[f] == i && f in w.cleared && f !in w.stopped
         && DependentsStopped(deps, w, f)
      then Some(w.(stopped := w.stopped + {f}))
      else None
    case Deleted(f, i) =>
      if f in w.registered && w.registered[f] == i && w.registered.Keys <= w.stopped
      then Some(w.(registered := w.registered - {f}, cleared := w.cleared - {f}, stopped := w.stopped - {f}))
      else None
  }

  function Replay(deps: Graph, trace: seq<Event>): Option<World> {
    if trace == [] then Some(NOTHING)
    else
      var w := Replay(deps, trace[..|trace| - 1]);
      if w == None then None else Observe(deps, w.value, trace[|trace| - 1])
  }

  lemma {:induction false} ReplaySnoc(deps: Graph, trace: seq<Event>, e: Event)
    requires Replay(deps, trace).Some?
    ensures Replay(deps, trace + [e]) == Observe(deps, Replay(deps, trace).value, e)
  {
    assert (trace + [e])[..|trace|] == trace;
  }

  // ---------- Dependency graphs ----------

  /** Every dependency has a smaller rank, so there is no cycle. */
  ghost predicate Acyclic(deps: Graph, rank: Factory -> nat) {
    forall f, d :: d in deps(f) ==> rank(d) < rank(f)
  }

  /** `f` needs `g`: reflexive and transitive. */
  ghost predicate Needs(deps: Graph, rank: Factory -> nat, f: Factory, g: Factory)
    requires Acyclic(deps, rank)
    decreases rank(f)
  {
    f == g || exists d :: d in deps(f) && Needs(deps, rank, d, g)
  }

  /** No module is listed twice, and each comes after all it depends on. */
  ghost predicate InDependencyOrder(deps: Graph, order: seq<Factory>) {
    order == [] ||
    var n := |order| - 1;
    && order[n] !in order[..n]
    && (forall d :: d in deps(order[n]) ==> d in order[..n])
    && InDependencyOrder(deps, order[..n])
  }

  lemma {:induction false} InOrderAt(deps: Graph, order: seq<Factory>, i: nat)
    requires InDependencyOrder(deps, order) && i < |order|
    ensures order[i] !in order[..i]
    ensures forall d :: d in deps(order[i]) ==> d in order[..i]
  {
    var n := |order| - 1;
    if i < n {
      InOrderAt(deps, order[..n], i);
      assert order[..n][..i] == order[..i];
    }
  }

  lemma {:induction false} OrderIsClosed(deps: Graph, rank: Factory -> nat, order: seq<Factory>, f: Factory, g: Factory)
    requires Acyclic(deps, rank) && InDependencyOrder(deps, order)
    requires f in order && Needs(deps, rank, f, g)
    ensures g in order
    decreases rank(f)
  {
    if f != g {
      var d :| d in deps(f) && Needs(deps, rank, d, g);
      var i :| 0 <= i < |order| && order[i] == f;
      InOrderAt(deps, order, i);
      OrderIsClosed(deps, rank, order, d, g);
    }
  }

  lemma {:induction false} OrderSnoc(deps: Graph, order: seq<Factory>, f: Factory)
    requires InDependencyOrder(deps, order) && f !in order
    requires forall d :: d in deps(f) ==> d in order
    ensures InDependencyOrder(deps, order + [f])
  {
    assert (order + [f])[..|order|] == order;
  }

  /** What an order lists last depends on nothing listed after it. */
  lemma {:induction false} DependentsComeLater(deps: Graph, order: seq<Factory>, i: nat, j: nat)
    requires InDependencyOrder(deps, order) && i < |order| && j < |order|
    requires order[i] in deps(order[j])
    ensures i < j
  {
    InOrderAt(deps, order, i);
    InOrderAt(deps, order, j);
  }

  /** Some module of the list needs `g`. */
  ghost predicate AnyNeeds(deps: Graph, rank: Factory -> nat, modules: seq<Factory>, g: Factory)
    requires Acyclic(deps, rank)
  {
    exists m :: m in modules && Needs(deps, rank, m, g)
  }

  lemma {:induction false} AnyNeedsSnoc(deps: Graph, rank: Factory -> nat, modules: seq<Factory>, m: Factory, g: Factory)
    requires Acyclic(deps, rank)
    ensures AnyNeeds(deps, rank, modules + [m], g) <==> AnyNeeds(deps, rank, modules, g) || Needs(deps, rank, m, g)
  {
    if AnyNeeds(deps, rank, modules, g) {
      var x :| x in modules && Needs(deps, rank, x, g);
      assert x in modules + [m];
    }
    if Needs(deps, rank, m, g) { assert m in modules + [m]; }
  }

  lemma {:induction false} AnyNeedsUpTo(deps: Graph, rank: Factory -> nat, modules: seq<Factory>, i: nat)
    requires Acyclic(deps, rank) && i < |modules|
    ensures forall g :: AnyNeeds(deps, rank, modules[..i + 1], g)
                        <==> AnyNeeds(deps, rank, modules[..i], g) || Needs(deps, rank, modules[i], g)
  {
    assert modules[..i + 1] == modules[..i] + [modules[i]];
    forall g { AnyNeedsSnoc(deps, rank, modules[..i], modules[i], g); }
  }

  // ---------- The registry as a value ----------

  datatype Registry = Registry(started: map<Factory, nat>, order: seq<Factory>, constructed: nat, trace: seq<Event>)

  ghost function Seen(deps: Graph, r: Registry): World
    requires Replay(deps, r.trace).Some?
  {
    Replay(deps, r.trace).value
  }

  /**
   * The observer accepts all that happened and agrees on what is registered; the
   * start order lists exactly that, each module once and after its dependencies.
   */
  ghost predicate Good(deps: Graph, r: Registry) {
    && Replay(deps, r.trace).Some?
    && Seen(deps, r).registered == r.started
    && Seen(deps, r).cleared == Seen(deps, r).stopped == {}
    && (forall i :: i in Seen(deps, r).seen ==> i < r.constructed)
    && InDependencyOrder(deps, r.order)
    && Lists(r.order, r.started)
  }

  ghost function Pending(deps: Graph, r: Registry): map<Factory, Progress>
    requires Good(deps, r)
  {
    Seen(deps, r).pending
  }

  function Begun(r: Registry, f: Factory): Registry {
    r.(constructed := r.constructed + 1, trace := r.trace + [Constructed(f, r.constructed)])
  }

  function Finished(r: Registry, f: Factory, i: nat): Registry {
    r.(started := r.started[f := i], order := r.order + [f],
       trace := r.trace + [Started(f, i)] + [Registered(f, i)])
  }

  /** The order lists exactly the registered modules. */
  ghost predicate Lists(order: seq<Factory>, registered: map<Factory, nat>) {
    forall f :: f in order <==> f in registered
  }

  lemma {:induction false} BegunGood(deps: Graph, r: Registry, f: Factory)
    requires Good(deps, r) && f !in r.started && f !in Pending(deps, r)
    ensures Good(deps, Begun(r, f))
    ensures Pending(deps, Begun(r, f)) == Pending(deps, r)[f := Progress(r.constructed, false)]
  {
    ReplaySnoc(deps, r.trace, Constructed(f, r.constructed));
  }

  lemma {:induction false} FinishedGood(deps: Graph, r: Registry, f: Factory, i: nat)
    requires Good(deps, r) && f !in r.started
    requires f in Pending(deps, r) && Pending(deps, r)[f] == Progress(i, false)
    requires forall d :: d in deps(f) ==> d in r.started
    ensures Good(deps, Finished(r, f, i))
    ensures Pending(deps, Finished(r, f, i)) == Pending(deps, r) - {f}
  {
    ReplaySnoc(deps, r.trace, Started(f, i));
    ReplaySnoc(deps, r.trace + [Started(f, i)], Registered(f, i));
    OrderSnoc(deps, r.order, f);
  }

  // ---------- Teardown ----------

  /** First pass: last started first, each handler cleared and then its module stopped. */
  function StopEvents(order: seq<Factory>, started: map<Factory, nat>): seq<Event>
    requires forall f :: f in order ==> f in started
  {
    if order == [] then []
    else
      var f := order[|order| - 1];
      [Cleared(f, started[f]), Stopped(f, started[f])] + StopEvents(order[..|order| - 1], started)
  }

  /** Second pass, once all are stopped: last started first, each deleted. */
  function DeleteEvents(order: seq<Factory>, started: map<Factory, nat>): seq<Event>
    requires forall f :: f in order ==> f in started
  {
    if order == [] then []
    else
      var f := order[|order| - 1];
      [Deleted(f, started[f])] + DeleteEvents(order[..|order| - 1], started)
  }

  ghost function Members(order: seq<Factory>): set<Factory> {
    set f | f in order
  }

  /** The observer's view with the modules from place `i` on stopped. */
  ghost function StoppedFrom(w: World, order: seq<Factory>, i: nat): World
    requires i <= |order|
  {
    w.(cleared := Members(order[i..]), stopped := Members(order[i..]))
  }

  /** The observer's view with only the modules before place `i` left to delete. */
  ghost function LeftBefore(w: World, order: seq<Factory>, i: nat): World
    requires i <= |order|
  {
    var left := Members(order[..i]);
    w.(registered := w.registered - (w.registered.Keys - left), cleared := left, stopped := left)
  }

  /** A trace with one more module stopped, or deleted, is that much closer to the whole pass. */
  lemma {:induction false} EventsSnoc(t: seq<Event>, order: seq<Factory>, started: map<Factory, nat>, i: nat)
    requires i < |order| && forall f :: f in order ==> f in started
    ensures var f := order[i];
      && t + [Cleared(f, started[f])] + [Stopped(f, started[f])] + StopEvents(order[..i], started)
         == t + StopEvents(order[..i + 1], started)
      && t + [Deleted(f, started[f])] + DeleteEvents(order[..i], started) == t + DeleteEvents(order[..i + 1], started)
  {
    assert order[..i + 1][..i] == order[..i];
  }

  /** Where the passes begin and end. */
  lemma {:induction false} PassEnds(w: World, order: seq<Factory>)
    requires Lists(order, w.registered)
    ensures w.cleared == w.stopped == {} ==> StoppedFrom(w, order, |order|) == w
    ensures LeftBefore(w, order, |order|) == StoppedFrom(w, order, 0)
    ensures LeftBefore(w, order, 0) == w.(registered := map[], cleared := {}, stopped := {})
  {
    assert order[|order|..] == [] == order[..0] && order[..|order|] == order == order[0..];
    assert Members([]) == {};
    assert w.registered.Keys - Members(order) == {};
    assert w.registered - {} == w.registered && w.registered - w.registered.Keys == map[];
  }

  /** Stopping the module before those already stopped is allowed: whatever depends on it comes later. */
  lemma {:induction false} StopStep(deps: Graph, w: World, order: seq<Factory>, i: nat)
    requires w.pending == map[] && InDependencyOrder(deps, order) && Lists(order, w.registered)
    requires i < |order|
    ensures var f, w1 := order[i], StoppedFrom(w, order, i + 1);
      && Observe(deps, w1, Cleared(f, w.registered[f])) == Some(w1.(cleared := w1.cleared + {f}))
      && Observe(deps, w1.(cleared := w1.cleared + {f}), Stopped(f, w.registered[f])) == Some(StoppedFrom(w, order, i))
  {
    var f, w1 := order[i], StoppedFrom(w, order, i + 1);
    forall g | g in w.registered && f in deps(g) ensures g in w1.stopped {
      var j :| 0 <= j < |order| && order[j] == g;
      DependentsComeLater(deps, order, i, j);
      assert order[i + 1..][j - i - 1] == g;
    }
    forall j | i < j < |order| ensures order[j] != f {
      InOrderAt(deps, order, j);
      assert order[..j][i] == f;
    }
    assert order[i..] == [f] + order[i + 1..];
    assert Members(order[i..]) == Members(order[i + 1..]) + {f};
  }

  lemma {:induction false} StopReplay(deps: Graph, t: seq<Event>, w: World, order: seq<Factory>, i: nat)
    requires w.pending == map[] && InDependencyOrder(deps, order) && Lists(order, w.registered)
    requires i < |order| && Replay(deps, t) == Some(StoppedFrom(w, order, i + 1))
    ensures var f := order[i];
      Replay(deps, t + [Cleared(f, w.registered[f])] + [Stopped(f, w.registered[f])]) == Some(StoppedFrom(w, order, i))
  {
    var f := order[i];
    StopStep(deps, w, order, i);
    ReplaySnoc(deps, t, Cleared(f, w.registered[f]));
    ReplaySnoc(deps, t + [Cleared(f, w.registered[f])], Stopped(f, w.registered[f]));
  }

  /** Deleting is allowed while all that is left is stopped. */
  lemma {:induction false} DeleteStep(deps: Graph, w: World, order: seq<Factory>, i: nat)
    requires InDependencyOrder(deps, order) && Lists(order, w.registered)
    requires i < |order|
    ensures Observe(deps, LeftBefore(w, order, i + 1), Deleted(order[i], w.registered[order[i]]))
            == Some(LeftBefore(w, order, i))
  {
    var f := order[i];
    InOrderAt(deps, order, i);
    assert order[..i + 1] == order[..i] + [f];
    assert Members(order[..i + 1]) == Members(order[..i]) + {f};
    var w1, w0 := LeftBefore(w, order, i + 1), LeftBefore(w, order, i);
    assert w1.registered - {f} == w0.registered;
    assert w1.stopped - {f} == w0.stopped;
  }

  lemma {:induction false} DeleteReplay(deps: Graph, t: seq<Event>, w: World, order: seq<Factory>, i: nat)
    requires InDependencyOrder(deps, order) && Lists(order, w.registered)
    requires i < |order| && Replay(deps, t) == Some(LeftBefore(w, order, i + 1))
    ensures var f := order[i];
      && Replay(deps, t + [Deleted(f, w.registered[f])]) == Some(LeftBefore(w, order, i))
      && f in LeftBefore(w, order, i + 1).registered
      && LeftBefore(w, order, i + 1).registered[f] == w.registered[f]
      && LeftBefore(w, order, i + 1).registered - {f} == LeftBefore(w, order, i).registered
  {
    DeleteStep(deps, w, order, i);
    ReplaySnoc(deps, t, Deleted(order[i], w.registered[order[i]]));
  }

  class ModuleRegistry {
    const deps: Graph
    ghost const rank: Factory -> nat
    var startedModules: map<Factory, nat>
    var startOrder: seq<Factory>
    var constructed: nat
    ghost var trace: seq<Event>
    ghost var requested: set<Factory>

    ghost function View(): Registry
      reads this
    {
      Registry(startedModules, startOrder, constructed, trace)
    }

    ghost predicate Valid()
      reads this
    {
      Acyclic(deps, rank) && Good(deps, View())
    }

    /** Nothing half started, and started is exactly what the requests need. */
    ghost predicate Quiet()
      requires Valid()
      reads this
    {
      && Pending(deps, View()) == map[]
      && (forall g :: g in startedModules <==> exists r :: r in requested && Needs(deps, rank, r, g))
    }

    constructor (deps: Graph, ghost rank: Factory -> nat)
      requires Acyclic(deps, rank)
      ensures Valid() && Quiet()
      ensures this.deps == deps && this.rank == rank && startOrder == [] && trace == [] && requested == {}
    {
      this.deps := deps;
      this.rank := rank;
      startedModules := map[];
      startOrder := [];
      constructed := 0;
      trace := [];
      requested := {};
    }

    /** Constructs the instance of a module that is neither started nor being started. */
    method Construct(f: Factory) returns (instance: nat)
      requires Valid() && f !in startedModules && f !in Pending(deps, View())
      modifies this`constructed, this`trace
      ensures instance == old(constructed) && View() == Begun(old(View()), f)
      ensures Valid() && Pending(deps, View()) == old(Pending(deps, View()))[f := Progress(instance, false)]
    {
      BegunGood(deps, View(), f);
      instance := constructed;
      constructed := constructed + 1;
      trace := trace + [Constructed(f, instance)];
    }

    /** Runs the module's own Start, and registers it. */
    method Finish(f: Factory, instance: nat)
      requires Valid() && f !in startedModules
      requires f in Pending(deps, View()) && Pending(deps, View())[f] == Progress(instance, false)
      requires forall d :: d in deps(f) ==> d in startedModules
      modifies this`trace, this`startOrder, this`startedModules
      ensures View() == Finished(old(View()), f, instance)
      ensures Valid() && Pending(deps, View()) == old(Pending(deps, View())) - {f}
    {
      FinishedGood(deps, View(), f, instance);
      trace := trace + [Started(f, instance)] + [Registered(f, instance)];
      startOrder := startOrder + [f];
      startedModules := startedModules[f := instance];
    }

    /** Starts one module and, before it, all it depends on. */
    method Start(f: Factory) returns (instance: nat)
      requires Valid()
      requires forall p :: p in Pending(deps, View()) ==> rank(f) < rank(p)
      modifies this
      ensures Valid() && Pending(deps, View()) == old(Pending(deps, View())) && requested == old(requested)
      ensures f in startedModules && instance == startedModules[f]
      ensures forall g :: g in startedModules <==> g in old(startedModules) || Needs(deps, rank, f, g)
      ensures old(startOrder) <= startOrder && old(trace) <= trace
      decreases rank(f) + 1, 0
    {
      if f !in startedModules {
        instance := StartNew(f);
      } else {
        forall g | Needs(deps, rank, f, g) ensures g in startedModules {
          OrderIsClosed(deps, rank, startOrder, f, g);
        }
        instance := startedModules[f];
      }
    }

    method StartNew(f: Factory) returns (instance: nat)
      requires Valid() && f !in startedModules
      requires forall p :: p in Pending(deps, View()) ==> rank(f) < rank(p)
      modifies this
      ensures Valid() && Pending(deps, View()) == old(Pending(deps, View())) && requested == old(requested)
      ensures f in startedModules && instance == startedModules[f]
      ensures forall g :: g in startedModules <==> g in old(startedModules) || Needs(deps, rank, f, g)
      ensures old(startOrder) <= startOrder && old(trace) <= trace
      decreases rank(f), 3
    {
      instance := StartDependencies(f);
      NeedsSelf(deps, rank, f);
      Finish(f, instance);
    }

    /** Constructs a module and starts all it depends on, which leaves the module itself to be started. */
    method StartDependencies(f: Factory) returns (instance: nat)
      requires Valid() && f !in startedModules
      requires forall p :: p in Pending(deps, View()) ==> rank(f) < rank(p)
      modifies this
      ensures Valid() && Pending(deps, View()) == old(Pending(deps, View()))[f := Progress(instance, false)]
      ensures requested == old(requested) && old(startOrder) <= startOrder && old(trace) <= trace
      ensures forall g :: g in startedModules <==> g in old(startedModules) || AnyNeeds(deps, rank, deps(f), g)
      ensures f !in startedModules
      decreases rank(f), 2
    {
      instance := Construct(f);
      StartList(deps(f), rank(f));
      NeverNeedsBelow(deps, rank, f);
    }

    /** Starts the modules of a list, one after the other. */
    method StartList(modules: seq<Factory>, ghost bound: nat)
      requires Valid()
      requires forall m :: m in modules ==> rank(m) < bound
      requires forall p :: p in Pending(deps, View()) ==> bound <= rank(p)
      modifies this
      ensures Valid() && Pending(deps, View()) == old(Pending(deps, View())) && requested == old(requested)
      ensures forall g :: g in startedModules <==> g in old(startedModules) || AnyNeeds(deps, rank, modules, g)
      ensures old(startOrder) <= startOrder && old(trace) <= trace
      decreases bound, 1
    {
      var i := 0;
      while i < |modules|
        invariant 0 <= i <= |modules|
        invariant Valid() && Pending(deps, View()) == old(Pending(deps, View())) && requested == old(requested)
        invariant forall g :: g in startedModules <==> g in old(startedModules) || AnyNeeds(deps, rank, modules[..i], g)
        invariant old(startOrder) <= startOrder && old(trace) <= trace
      {
        var _ := Start(modules[i]);
        AnyNeedsUpTo(deps, rank, modules, i);
        i := i + 1;
      }
      assert modules[..|modules|] == modules;
    }

    /** A request from outside: `Start<T>`. */
    method Request(f: Factory) returns (instance: nat)
      requires Valid() && Quiet()
      modifies this
      ensures Valid() && Quiet() && requested == old(requested) + {f}
      ensures f in startedModules && instance == startedModules[f]
      ensures old(startOrder) <= startOrder && old(trace) <= trace
    {
      instance := Start(f);
      requested := requested + {f};
    }

    method IsStarted(f: Factory) returns (yes: bool)
      requires Valid() && Quiet()
      ensures yes <==> exists r :: r in requested && Needs(deps, rank, r, f)
    {
      yes := f in startedModules;
    }

    /** None where the source fails an assertion: `d` is not listed by `f`, or not started. */
    method GetDependency(f: Factory, d: Factory) returns (instance: Option<nat>)
      requires Valid()
      ensures instance.Some? <==> d in deps(f) && d in startedModules
      ensures instance.Some? ==> instance.value == startedModules[d]
      ensures f in startedModules && d in deps(f) ==> instance.Some?
    {
      if f in startedModules && d in deps(f) {
        var i :| 0 <= i < |startOrder| && startOrder[i] == f;
        InOrderAt(deps, startOrder, i);
      }
      var i := 0;
      while i < |deps(f)|
        invariant 0 <= i <= |deps(f)| && d !in deps(f)[..i]
      {
        if deps(f)[i] == d {
          return if d in startedModules then Some(startedModules[d]) else None;
        }
        i := i + 1;
      }
      return None;
    }

    /** Stops every module, then deletes every module, in reverse of the start order. */
    method StopAll()
      requires Valid() && Quiet()
      modifies this
      ensures Valid() && Quiet() && startedModules == map[] && startOrder == [] && requested == {}
      ensures trace == old(trace) + StopEvents(old(startOrder), old(startedModules))
                       + DeleteEvents(old(startOrder), old(startedModules))
    {
      ghost var w := Seen(deps, View());
      StopPass(w);
      DeletePass(w);
      startOrder := [];
      requested := {};
    }

    method StopPass(ghost w: World)
      requires Replay(deps, trace) == Some(w) && w.pending == map[] && w.registered == startedModules
      requires w.cleared == w.stopped == {}
      requires InDependencyOrder(deps, startOrder) && Lists(startOrder, startedModules)
      modifies this`trace
      ensures trace == old(trace) + StopEvents(startOrder, startedModules)
      ensures Replay(deps, trace) == Some(StoppedFrom(w, startOrder, 0))
    {
      var i := |startOrder|;
      PassEnds(w, startOrder);
      assert startOrder[..i] == startOrder;
      ghost var whole := trace + StopEvents(startOrder, startedModules);
      while i > 0
        invariant 0 <= i <= |startOrder|
        invariant trace + StopEvents(startOrder[..i], startedModules) == whole
        invariant Replay(deps, trace) == Some(StoppedFrom(w, startOrder, i))
      {
        i := i - 1;
        StopOne(i, w);
      }
    }

    method StopOne(i: nat, ghost w: World)
      requires i < |startOrder| && w.pending == map[] && w.registered == startedModules
      requires InDependencyOrder(deps, startOrder) && Lists(startOrder, startedModules)
      requires Replay(deps, trace) == Some(StoppedFrom(w, startOrder, i + 1))
      modifies this`trace
      ensures trace + StopEvents(startOrder[..i], startedModules) == old(trace) + StopEvents(startOrder[..i + 1], startedModules)
      ensures Replay(deps, trace) == Some(StoppedFrom(w, startOrder, i))
    {
      EventsSnoc(trace, startOrder, startedModules, i);
      StopReplay(deps, trace, w, startOrder, i);
      var f := startOrder[i];
      var instance := startedModules[f];
      trace := trace + [Cleared(f, instance)] + [Stopped(f, instance)];
    }

    method DeletePass(ghost w: World)
      requires w.registered == startedModules
      requires Replay(deps, trace) == Some(StoppedFrom(w, startOrder, 0))
      requires InDependencyOrder(deps, startOrder) && Lists(startOrder, startedModules)
      modifies this`trace, this`startedModules
      ensures trace == old(trace) + DeleteEvents(startOrder, old(startedModules))
      ensures Replay(deps, trace) == Some(LeftBefore(w, startOrder, 0)) && startedModules == map[]
    {
      var i := |startOrder|;
      PassEnds(w, startOrder);
      assert startOrder[..i] == startOrder;
      ghost var whole := trace + DeleteEvents(startOrder, w.registered);
      while i > 0
        invariant 0 <= i <= |startOrder|
        invariant trace + DeleteEvents(startOrder[..i], w.registered) == whole
        invariant Replay(deps, trace) == Some(LeftBefore(w, startOrder, i))
        invariant startedModules == LeftBefore(w, startOrder, i).registered
      {
        i := i - 1;
        DeleteOne(i, w);
      }
    }

    method DeleteOne(i: nat, ghost w: World)
      requires i < |startOrder| && startedModules == LeftBefore(w, startOrder, i + 1).registered
      requires InDependencyOrder(deps, startOrder) && Lists(startOrder, w.registered)
      requires Replay(deps, trace) == Some(LeftBefore(w, startOrder, i + 1))
      modifies this`trace, this`startedModules
      ensures trace + DeleteEvents(startOrder[..i], w.registered) == old(trace) + DeleteEvents(startOrder[..i + 1], w.registered)
      ensures Replay(deps, trace) == Some(LeftBefore(w, startOrder, i))
      ensures startedModules == LeftBefore(w, startOrder, i).registered
    {
      EventsSnoc(trace, startOrder, w.registered, i);
      DeleteReplay(deps, trace, w, startOrder, i);
      var f := startOrder[i];
      var instance := startedModules[f];
      trace := trace + [Deleted(f, instance)];
      startedModules := startedModules - {f};
    }
  }

  /** A module needs itself, and what its dependencies need; they need themselves. */
  lemma {:induction false} NeedsSelf(deps: Graph, rank: Factory -> nat, f: Factory)
    requires Acyclic(deps, rank)
    ensures forall d :: d in deps(f) ==> AnyNeeds(deps, rank, deps(f), d)
    ensures forall g :: Needs(deps, rank, f, g) <==> f == g || AnyNeeds(deps, rank, deps(f), g)
  {
    forall d | d in deps(f) ensures AnyNeeds(deps, rank, deps(f), d) { assert Needs(deps, rank, d, d); }
  }

  /** What a module needs has no larger rank. */
  lemma {:induction false} NeedsRank(deps: Graph, rank: Factory -> nat, f: Factory, g: Factory)
    requires Acyclic(deps, rank) && Needs(deps, rank, f, g)
    ensures rank(g) <= rank(f)
    decreases rank(f)
  {
    if f != g {
      var d :| d in deps(f) && Needs(deps, rank, d, g);
      NeedsRank(deps, rank, d, g);
    }
  }

  /** No dependency of `f` needs `f`. */
  lemma {:induction false} NeverNeedsBelow(deps: Graph, rank: Factory -> nat, f: Factory)
    requires Acyclic(deps, rank)
    ensures !AnyNeeds(deps, rank, deps(f), f)
  {
    forall d | d in deps(f) ensures !Needs(deps, rank, d, f) {
      if Needs(deps, rank, d, f) { NeedsRank(deps, rank, d, f); }
    }
  }
}
