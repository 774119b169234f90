/**
 * The message loop thread's life cycle as a transition system: any number of callers of
 * StartUp and ShutDown, and the workers they create. One action is one scope of the API
 * mutex, one blocking wait, or one access made outside the mutex.
 */
module MessageLoopThread {
  import opened Common

  /** Where a worker is in Run. */
  datatype WorkerAt =
    | Created                   // before its first locked scope
    | Looping(quit: bool)       // in its run loop; `quit` once the quit closure has been posted
    | Leaving                   // its run loop has returned
    | Exited                    // after its second locked scope

  /** Where a caller is, while it is inside a call. */
  datatype CallerAt =
    | Waiting(worker: nat)      // StartUp, waiting for the promise of the worker it made
    | ToJoin                    // ShutDown, about to read thread_ in order to join it
    | Joining(worker: nat)      // ShutDown, blocked in join
    | ToFree                    // ShutDown, about to delete thread_

  datatype State = State(
    thread: Option<nat>,        // thread_, as the number of the worker it refers to
    loop: Option<nat>,          // message_loop_ and run_loop_, by the worker that made them
    shuttingDown: bool,
    workers: seq<WorkerAt>,     // every worker ever created
    joined: set<nat>,
    freed: set<nat>,
    callers: map<nat, CallerAt>,
    fault: bool)                // a null or stale pointer was used, or a thread joined or deleted wrongly

  const INITIAL := State(None, None, false, [], {}, {}, map[], false)

  datatype Action =
    | StartUp(c: nat)           // the locked scope of StartUp
    | Started(c: nat)           // StartUp's wait returns
    | ShutDown(c: nat)          // the first locked scope of ShutDown
    | ReadThread(c: nat)        // ShutDown reads thread_, outside the mutex
    | Join(c: nat)              // join returns
    | Free(c: nat)              // the second locked scope of ShutDown
    | Enter(w: nat)             // the first locked scope of Run
    | Quit(w: nat)              // the run loop returns
    | Exit(w: nat)              // the second locked scope of Run

  predicate InCall(s: State, c: nat, at: CallerAt) {
    c in s.callers && s.callers[c] == at
  }

  /** Whether an action can happen: callers enter calls freely, and waits block. */
  predicate Enabled(s: State, a: Action) {
    match a
    case StartUp(c) => c !in s.callers
    case Started(c) =>
      c in s.callers && s.callers[c].Waiting?
      && s.callers[c].worker < |s.workers| && s.workers[s.callers[c].worker] != Created
    case ShutDown(c) => c !in s.callers
    case ReadThread(c) => InCall(s, c, ToJoin)
    case Join(c) =>
      c in s.callers && s.callers[c].Joining?
      && s.callers[c].worker < |s.workers| && s.workers[s.callers[c].worker] == Exited
    case Free(c) => InCall(s, c, ToFree)
    case Enter(w) => w < |s.workers| && s.workers[w] == Created
    case Quit(w) => w < |s.workers| && s.workers[w] == Looping(true)
    case Exit(w) => w < |s.workers| && s.workers[w] == Leaving
  }

  function StartUpStep(s: State, c: nat): State {
    if s.thread.Some? then s
    else
      s.(thread := Some(|s.workers|), workers := s.workers + [Created], callers := s.callers[c := Waiting(|s.workers|)])
  }

  /** ShutDown returns at once unless there is a running thread that nobody is shutting down. */
  predicate TakesEffect(s: State) {
    s.thread.Some? && s.loop.Some? && !s.shuttingDown
  }

  function ShutDownStep(s: State, c: nat): State {
    if !TakesEffect(s) then s
    else
      var w := s.loop.value;
      s.(shuttingDown := true,
         workers := if w < |s.workers| && s.workers[w].Looping? then s.workers[w := Looping(true)] else s.workers,
         callers := s.callers[c := ToJoin],
         fault := s.fault || !(w < |s.workers| && s.workers[w].Looping?))
  }

  function Step(s: State, a: Action): State
    requires Enabled(s, a)
  {
    match a
    case StartUp(c) => StartUpStep(s, c)
    case Started(c) => s.(callers := s.callers - {c})
    case ShutDown(c) => ShutDownStep(s, c)
    case ReadThread(c) =>
      if s.thread == None then s.(fault := true)
      else s.(callers := s.callers[c := Joining(s.thread.value)])
    case Join(c) =>
      var w := s.callers[c].worker;
      s.(callers := s.callers[c := ToFree], joined := s.joined + {w},
         fault := s.fault || w in s.joined || w in s.freed)
    case Free(c) =>
      if s.thread == None then s.(fault := true)
      else
        var w := s.thread.value;
        s.(thread := None, shuttingDown := false, callers := s.callers - {c}, freed := s.freed + {w},
           fault := s.fault || w !in s.joined || w in s.freed)
    case Enter(w) => s.(workers := s.workers[w := Looping(false)], loop := Some(w), fault := s.fault || s.loop.Some?)
    case Quit(w) => s.(workers := s.workers[w := Leaving])
    case Exit(w) => s.(workers := s.workers[w := Exited], loop := None, fault := s.fault || s.loop != Some(w))
  }

  /** The state after the first n actions of a run, or None if some of them could not happen. */
  function Run(actions: seq<Action>, n: nat): Option<State>
    requires n <= |actions|
  {
    if n == 0 then Some(INITIAL)
    else
      var s := Run(actions, n - 1);
      if s.Some? && Enabled(s.value, actions[n - 1]) then Some(Step(s.value, actions[n - 1])) else None
  }

  predicate IsRunning(s: State) { s.loop.Some? }

  // ---------- The invariant ----------

  /** Between its two locked scopes. */
  predicate HasLoop(at: WorkerAt) { at.Looping? || at.Leaving? }

  ghost predicate Stopping(s: State, c: nat) {
    c in s.callers && !s.callers[c].Waiting?
  }

  /** Where the worker is that `thread_` refers to; Exited if there is none. */
  function CurrentAt(s: State): WorkerAt {
    if s.thread.Some? && s.thread.value < |s.workers| then s.workers[s.thread.value] else Exited
  }

  /** The worker `thread_` refers to is the only one not yet joined, or about to be freed. */
  ghost predicate CurrentWorker(s: State) {
    && (s.thread.Some? ==> s.thread.value < |s.workers| && s.thread.value !in s.freed)
    && (forall w :: 0 <= w < |s.workers| && Some(w) != s.thread ==>
          s.workers[w] == Exited && w in s.joined && w in s.freed)
    && (forall w :: w in s.joined || w in s.freed ==> 0 <= w < |s.workers|)
    && s.loop == if HasLoop(CurrentAt(s)) then s.thread else None
  }

  /** While a shutdown is under way one caller joins and frees; otherwise none does. */
  ghost predicate OneStopper(s: State) {
    && (s.shuttingDown ==> exists c :: Stopping(s, c))
    && (forall c :: Stopping(s, c) ==> s.shuttingDown)
    && (forall c, d :: Stopping(s, c) && Stopping(s, d) ==> c == d)
    && (s.shuttingDown <==> s.thread.Some? && CurrentAt(s) != Created && CurrentAt(s) != Looping(false))
  }

  /** What each caller relies on. */
  ghost predicate Relies(s: State, at: CallerAt) {
    match at
    case Waiting(w) => w < |s.workers|
    case ToJoin => s.thread.Some? && s.thread.value !in s.joined
    case Joining(w) => s.thread == Some(w) && w !in s.joined
    case ToFree => s.thread.Some? && s.thread.value in s.joined && CurrentAt(s) == Exited
  }

  ghost predicate Inv(s: State) {
    && !s.fault
    && CurrentWorker(s)
    && OneStopper(s)
    && (forall c :: c in s.callers ==> Relies(s, s.callers[c]))
    && (s.thread.Some? && s.thread.value in s.joined ==> s.shuttingDown)
  }

  // ---------- Preserved by every action ----------

  lemma {:induction false} StartUpInv(s: State, c: nat)
    requires Inv(s) && Enabled(s, StartUp(c))
    ensures Inv(StartUpStep(s, c))
  {
    var s' := StartUpStep(s, c);
    forall d ensures Stopping(s', d) <==> Stopping(s, d) { }
  }

  lemma {:induction false} StartedInv(s: State, c: nat)
    requires Inv(s) && Enabled(s, Started(c))
    ensures Inv(Step(s, Started(c)))
  {
    var s' := Step(s, Started(c));
    forall d ensures Stopping(s', d) <==> Stopping(s, d) { }
  }

  lemma {:induction false} ShutDownInv(s: State, c: nat)
    requires Inv(s) && Enabled(s, ShutDown(c))
    ensures Inv(ShutDownStep(s, c))
  {
    var s' := ShutDownStep(s, c);
    if TakesEffect(s) {
      assert Stopping(s', c);
      forall d ensures Stopping(s', d) <==> d == c { assert !Stopping(s, d); }
    }
  }

  /** Besides the one caller that is shutting down, all others wait for a start. */
  lemma {:induction false} OthersWait(s: State, c: nat)
    requires Inv(s) && Stopping(s, c)
    ensures forall d :: d in s.callers && d != c ==> s.callers[d].Waiting?
  {
    forall d | d in s.callers && d != c ensures s.callers[d].Waiting? {
      assert !Stopping(s, d);
    }
  }

  lemma {:induction false} JoinInv(s: State, c: nat)
    requires Inv(s) && Enabled(s, Join(c))
    ensures Inv(Step(s, Join(c)))
  {
    var s' := Step(s, Join(c));
    assert Relies(s, s.callers[c]);
    assert Stopping(s, c) && Stopping(s', c);
    OthersWait(s, c);
  }

  lemma {:induction false} ReadThreadInv(s: State, c: nat)
    requires Inv(s) && Enabled(s, ReadThread(c))
    ensures Inv(Step(s, ReadThread(c)))
  {
    var s' := Step(s, ReadThread(c));
    assert Relies(s, s.callers[c]);
    assert Stopping(s, c) && Stopping(s', c);
    OthersWait(s, c);
  }

  lemma {:induction false} FreeInv(s: State, c: nat)
    requires Inv(s) && Enabled(s, Free(c))
    ensures Inv(Step(s, Free(c)))
  {
    var s' := Step(s, Free(c));
    assert Relies(s, s.callers[c]);
    assert Stopping(s, c);
    OthersWait(s, c);
    forall d | d in s'.callers ensures Relies(s', s'.callers[d]) { assert Relies(s, s.callers[d]); }
  }

  lemma {:induction false} WorkerInv(s: State, a: Action)
    requires Inv(s) && Enabled(s, a) && (a.Enter? || a.Quit? || a.Exit?)
    ensures Inv(Step(s, a))
  {
    var s' := Step(s, a);
    assert s.thread == Some(a.w);
    forall d ensures Stopping(s', d) <==> Stopping(s, d) { }
    forall d | d in s'.callers ensures Relies(s', s'.callers[d]) { assert Relies(s, s.callers[d]); }
  }

  lemma {:induction false} StepInv(s: State, a: Action)
    requires Inv(s) && Enabled(s, a)
    ensures Inv(Step(s, a))
  {
    match a
    case StartUp(c) => StartUpInv(s, c);
    case Started(c) => StartedInv(s, c);
    case ShutDown(c) => ShutDownInv(s, c);
    case ReadThread(c) => ReadThreadInv(s, c);
    case Join(c) => JoinInv(s, c);
    case Free(c) => FreeInv(s, c);
    case _ => WorkerInv(s, a);
  }

  // ---------- Every interleaving ----------

  lemma {:induction false} EveryRunInv(actions: seq<Action>, n: nat)
    requires n <= |actions|
    ensures Run(actions, n).Some? ==> Inv(Run(actions, n).value)
  {
    if n > 0 {
      EveryRunInv(actions, n - 1);
      if Run(actions, n).Some? { StepInv(Run(actions, n - 1).value, actions[n - 1]); }
    }
  }

  /**
   * In every interleaving: no pointer is misused and no thread is joined or deleted wrongly;
   * at most one worker is unjoined; while someone is shutting down `thread_` is set and refers
   * to the worker being joined, and nobody else is; and there is a message loop exactly while
   * the current worker is between its two locked scopes.
   */
  lemma {:induction false} LifeCycle(actions: seq<Action>, n: nat)
    requires n <= |actions| && Run(actions, n).Some?
    ensures var s := Run(actions, n).value;
      && !s.fault
      && (forall v, w :: 0 <= v < |s.workers| && 0 <= w < |s.workers| && v !in s.joined && w !in s.joined ==> v == w)
      && (forall c, d :: Stopping(s, c) && Stopping(s, d) ==> c == d)
      && (forall c :: Stopping(s, c) ==> s.thread.Some?)
      && (forall c: nat, w: nat :: InCall(s, c, Joining(w)) ==> s.thread == Some(w))
      && (IsRunning(s) <==> s.thread.Some? && s.thread.value < |s.workers| && HasLoop(s.workers[s.thread.value]))
      && (IsRunning(s) ==> s.loop == s.thread)
  {
    EveryRunInv(actions, n);
    var s := Run(actions, n).value;
    forall c | Stopping(s, c) ensures s.thread.Some? { assert Relies(s, s.callers[c]); }
    forall c: nat, w: nat | InCall(s, c, Joining(w)) ensures s.thread == Some(w) { assert Relies(s, s.callers[c]); }
  }

  lemma {:induction false} RunPrefix(actions: seq<Action>, m: nat, n: nat)
    requires m <= n <= |actions| && Run(actions, n).Some?
    ensures Run(actions, m).Some? && Run(actions, m).value.joined <= Run(actions, n).value.joined
  {
    if m < n { RunPrefix(actions, m, n - 1); }
  }

  /** The worker that action number n, a join, joins. */
  function JoinedAt(actions: seq<Action>, n: nat): Option<nat>
    requires n < |actions|
  {
    var s := Run(actions, n);
    if actions[n].Join? && s.Some? && actions[n].c in s.value.callers && s.value.callers[actions[n].c].Joining?
    then Some(s.value.callers[actions[n].c].worker) else None
  }

  lemma {:induction false} JoinedThen(actions: seq<Action>, n: nat)
    requires n < |actions| && Run(actions, n + 1).Some? && actions[n].Join?
    ensures JoinedAt(actions, n).Some?
    ensures Run(actions, n).Some? && JoinedAt(actions, n).value !in Run(actions, n).value.joined
    ensures JoinedAt(actions, n).value in Run(actions, n + 1).value.joined
  {
    EveryRunInv(actions, n);
    var s := Run(actions, n).value;
    assert Relies(s, s.callers[actions[n].c]);
  }

  /** No worker is ever joined twice, by whomever. */
  lemma {:induction false} JoinedOnce(actions: seq<Action>, m: nat, n: nat)
    requires m < n < |actions| && Run(actions, n + 1).Some? && actions[m].Join? && actions[n].Join?
    ensures JoinedAt(actions, m).Some? && JoinedAt(actions, n).Some? && JoinedAt(actions, m) != JoinedAt(actions, n)
  {
    RunPrefix(actions, m + 1, n + 1);
    RunPrefix(actions, m + 1, n);
    JoinedThen(actions, m);
    JoinedThen(actions, n);
  }

  /** Whoever frees a worker has itself joined that worker. */
  lemma {:induction false} FreedByJoiner(actions: seq<Action>, n: nat, c: nat)
    requires n <= |actions| && Run(actions, n).Some? && InCall(Run(actions, n).value, c, ToFree)
    ensures Run(actions, n).value.thread.Some?
    ensures exists m :: 0 <= m < n && actions[m] == Join(c) && JoinedAt(actions, m) == Run(actions, n).value.thread
  {
    EveryRunInv(actions, n);
    EveryRunInv(actions, n - 1);
    var s, a := Run(actions, n - 1).value, actions[n - 1];
    assert Relies(Run(actions, n).value, ToFree);
    if a == Join(c) {
      assert Relies(s, s.callers[c]);
      assert JoinedAt(actions, n - 1) == s.thread;
    } else {
      assert InCall(s, c, ToFree);
      FreedByJoiner(actions, n - 1, c);
      SameThread(s, a, c);
    }
  }

  /** While `c` is about to free the thread, no other action touches `thread_`. */
  lemma {:induction false} SameThread(s: State, a: Action, c: nat)
    requires Inv(s) && InCall(s, c, ToFree) && Enabled(s, a) && InCall(Step(s, a), c, ToFree)
    ensures Step(s, a).thread == s.thread
  {
    assert Relies(s, s.callers[c]) && Stopping(s, c);
    if a.Free? && a.c != c { assert Stopping(s, a.c); }
  }

  // ---------- Nobody waits for ever ----------

  function RunFrom(s: State, actions: seq<Action>): Option<State>
    decreases |actions|
  {
    if actions == [] then Some(s)
    else if Enabled(s, actions[0]) then RunFrom(Step(s, actions[0]), actions[1..])
    else None
  }

  /** Finishing actions: everything but entering a new call. */
  predicate Finishing(actions: seq<Action>) {
    forall i :: 0 <= i < |actions| ==> !actions[i].StartUp? && !actions[i].ShutDown?
  }

  function WorkerLeft(at: WorkerAt): nat {
    match at case Created => 3 case Looping(_) => 2 case Leaving => 1 case Exited => 0
  }

  /** How many actions a call still needs. */
  function Left(s: State, c: nat): nat
    requires c in s.callers
  {
    match s.callers[c]
    case Waiting(w) => 1 + (if w < |s.workers| && s.workers[w] == Created then 1 else 0)
    case ToJoin => 3 + WorkerLeft(CurrentAt(s))
    case Joining(_) => 2 + WorkerLeft(CurrentAt(s))
    case ToFree => 1
  }

  /** An enabled action that brings the call of `c` closer to its end. */
  function NextFor(s: State, c: nat): Action
    requires c in s.callers
  {
    match s.callers[c]
    case Waiting(w) => if w < |s.workers| && s.workers[w] == Created then Enter(w) else Started(c)
    case ToJoin => ReadThread(c)
    case Joining(w) =>
      if w < |s.workers| && s.workers[w].Looping? then Quit(w)
      else if w < |s.workers| && s.workers[w].Leaving? then Exit(w)
      else Join(c)
    case ToFree => Free(c)
  }

  lemma {:induction false} NextForHelps(s: State, c: nat)
    requires Inv(s) && c in s.callers
    ensures var a := NextFor(s, c);
      && Enabled(s, a) && !a.StartUp? && !a.ShutDown?
      && (c in Step(s, a).callers ==> Left(Step(s, a), c) < Left(s, c))
  {
    assert Relies(s, s.callers[c]);
    if !s.callers[c].Waiting? { assert Stopping(s, c); }
  }

  /** From every reachable state every call under way can return, without any new call being made. */
  lemma {:induction false} EveryCallCanReturn(s: State, c: nat) returns (actions: seq<Action>)
    requires Inv(s) && c in s.callers
    ensures Finishing(actions) && |actions| <= Left(s, c)
    ensures RunFrom(s, actions).Some? && c !in RunFrom(s, actions).value.callers
    decreases Left(s, c)
  {
    var a := NextFor(s, c);
    NextForHelps(s, c);
    StepInv(s, a);
    if c in Step(s, a).callers {
      var rest := EveryCallCanReturn(Step(s, a), c);
      actions := [a] + rest;
      assert actions[1..] == rest;
    } else {
      actions := [a];
      assert actions[1..] == [];
    }
  }

  // ---------- Every schedule ends, with every call returned ----------

  /** Steps left to the one caller that is shutting down, besides its last. */
  ghost function StopperLeft(s: State): nat {
    if exists c :: InCall(s, c, ToJoin) then 2
    else if exists c :: c in s.callers && s.callers[c].Joining? then 1
    else 0
  }

  /** How many finishing actions are left. */
  ghost function Measure(s: State): nat {
    |s.callers.Keys| + StopperLeft(s) + WorkerLeft(CurrentAt(s))
  }

  lemma {:induction false} StopperLeftIs(s: State, c: nat)
    requires OneStopper(s)
    ensures Stopping(s, c) ==>
              StopperLeft(s) == if s.callers[c].ToJoin? then 2 else if s.callers[c].Joining? then 1 else 0
    ensures (forall d :: !Stopping(s, d)) ==> StopperLeft(s) == 0
  {
    forall d | InCall(s, d, ToJoin) || (d in s.callers && s.callers[d].Joining?) ensures Stopping(s, d) { }
    if Stopping(s, c) && s.callers[c].ToJoin? { assert InCall(s, c, ToJoin); }
  }

  lemma {:induction false} SameStopper(s: State, s': State)
    requires forall d :: Stopping(s', d) <==> Stopping(s, d)
    requires forall d :: Stopping(s, d) ==> d in s'.callers && s'.callers[d] == s.callers[d]
    ensures StopperLeft(s') == StopperLeft(s)
  {
    forall d ensures InCall(s', d, ToJoin) <==> InCall(s, d, ToJoin) { assert Stopping(s', d) <==> Stopping(s, d); }
    forall d ensures (d in s'.callers && s'.callers[d].Joining?) <==> (d in s.callers && s.callers[d].Joining?) {
      assert Stopping(s', d) <==> Stopping(s, d);
    }
  }

  lemma {:induction false} StartedMeasure(s: State, c: nat)
    requires Inv(s) && Enabled(s, Started(c))
    ensures Measure(Step(s, Started(c))) + 1 == Measure(s)
  {
    var s' := Step(s, Started(c));
    assert s'.callers.Keys == s.callers.Keys - {c};
    forall d ensures Stopping(s', d) <==> Stopping(s, d) { }
    SameStopper(s, s');
  }

  lemma {:induction false} StopperMeasure(s: State, a: Action)
    requires Inv(s) && Enabled(s, a) && (a.ReadThread? || a.Join? || a.Free?)
    ensures Measure(Step(s, a)) + 1 == Measure(s)
  {
    var s' := Step(s, a);
    StepInv(s, a);
    assert Relies(s, s.callers[a.c]) && Stopping(s, a.c);
    assert s'.callers.Keys == if a.Free? then s.callers.Keys - {a.c} else s.callers.Keys;
    StopperLeftIs(s, a.c);
    StopperLeftIs(s', a.c);
  }

  lemma {:induction false} WorkerMeasure(s: State, a: Action)
    requires Inv(s) && Enabled(s, a) && (a.Enter? || a.Quit? || a.Exit?)
    ensures Measure(Step(s, a)) + 1 == Measure(s)
  {
    assert s.thread == Some(a.w);
    SameStopper(s, Step(s, a));
  }

  /** Every action but entering a call brings the end closer by one. */
  lemma {:induction false} FinishingMeasure(s: State, a: Action)
    requires Inv(s) && Enabled(s, a) && !a.StartUp? && !a.ShutDown?
    ensures Measure(Step(s, a)) + 1 == Measure(s)
  {
    match a
    case Started(c) => StartedMeasure(s, c);
    case ReadThread(c) => StopperMeasure(s, a);
    case Join(c) => StopperMeasure(s, a);
    case Free(c) => StopperMeasure(s, a);
    case _ => WorkerMeasure(s, a);
  }

  /** From every reachable state every run without new calls is bounded, whatever the schedule. */
  lemma {:induction false} EveryFinishingRunEnds(s: State, actions: seq<Action>)
    requires Inv(s) && Finishing(actions) && RunFrom(s, actions).Some?
    ensures Inv(RunFrom(s, actions).value) && |actions| + Measure(RunFrom(s, actions).value) == Measure(s)
    decreases |actions|
  {
    if actions != [] {
      FinishingMeasure(s, actions[0]);
      StepInv(s, actions[0]);
      EveryFinishingRunEnds(Step(s, actions[0]), actions[1..]);
    }
  }

  /** And when none of these actions can happen any more, every call has returned. */
  lemma {:induction false} StuckMeansReturned(s: State)
    requires Inv(s) && forall a :: Enabled(s, a) ==> a.StartUp? || a.ShutDown?
    ensures s.callers == map[]
  {
    forall c ensures c !in s.callers {
      if c in s.callers { NextForHelps(s, c); }
    }
  }

  // ---------- What the two calls achieve, and what they do not ----------

  /**
   * ShutDown stays to join exactly when the worker is in its loop and nobody has asked it to
   * quit; in every other case it returns at once and changes nothing.
   */
  lemma {:induction false} ShutDownStaysIff(s: State, c: nat)
    requires Inv(s) && Enabled(s, ShutDown(c))
    ensures var s' := Step(s, ShutDown(c));
      && (c in s'.callers <==> s.thread.Some? && CurrentAt(s) == Looping(false))
      && (c !in s'.callers ==> s' == s)
      && (c in s'.callers ==> CurrentAt(s') == Looping(true) && s'.shuttingDown)
  {
  }

  /** A ShutDown that took effect leaves things as if the thread had never been started. */
  lemma {:induction false} ShutDownCompletes(s: State, c: nat)
    requires Inv(s) && InCall(s, c, ToFree)
    ensures var s' := Step(s, Free(c));
      && s'.thread == None && !IsRunning(s') && !s'.shuttingDown && c !in s'.callers
      && (forall w :: 0 <= w < |s'.workers| ==> s'.workers[w] == Exited && w in s'.joined && w in s'.freed)
  {
    FreeInv(s, c);
    assert Relies(s, s.callers[c]);
  }

  /** A ShutDown that returns at once leaves the thread stopped exactly if there is none, or its worker has exited. */
  lemma {:induction false} ShutDownReturnsStoppedIff(s: State, c: nat)
    requires Inv(s) && Enabled(s, ShutDown(c)) && c !in Step(s, ShutDown(c)).callers
    ensures var s' := Step(s, ShutDown(c));
      (!IsRunning(s') && forall w :: 0 <= w < |s'.workers| ==> s'.workers[w] != Created)
      <==> s.thread == None || CurrentAt(s) == Exited
  {
    if s.thread.Some? { assert s.workers[s.thread.value] == CurrentAt(s); }
  }

  /** A second ShutDown returns at once while the thread still runs. */
  lemma {:induction false} SecondShutDownDoesNotWait()
    ensures var s := Run([StartUp(0), Enter(0), ShutDown(1), ShutDown(2)], 4);
      s.Some? && 1 in s.value.callers && 2 !in s.value.callers && IsRunning(s.value)
  {
    var all := [StartUp(0), Enter(0), ShutDown(1), ShutDown(2)];
    assert Run(all, 0) == Some(INITIAL) && Run(all, 1).Some? && Run(all, 2).Some? && Run(all, 3).Some?;
  }

  /** The documentation says a thread is not running after ShutDown; one called while it starts up returns at once. */
  lemma {:induction false} ShutDownWhileStarting()
    ensures var s := Run([StartUp(0), ShutDown(1), Enter(0)], 3);
      s.Some? && 1 !in s.value.callers && IsRunning(s.value)
  {
    var all := [StartUp(0), ShutDown(1), Enter(0)];
    assert Run(all, 0) == Some(INITIAL) && Run(all, 1).Some? && Run(all, 2).Some?;
  }

  /** A thread counts as running, and takes tasks, until its last scope, though its run loop may have returned. */
  lemma {:induction false} RunningWhileLeaving()
    ensures var s := Run([StartUp(0), Enter(0), ShutDown(1), Quit(0)], 4);
      s.Some? && IsRunning(s.value) && CurrentAt(s.value) == Leaving
  {
    var all := [StartUp(0), Enter(0), ShutDown(1), Quit(0)];
    assert Run(all, 0) == Some(INITIAL) && Run(all, 1).Some? && Run(all, 2).Some? && Run(all, 3).Some?;
  }

  /**
   * StartUp waits exactly if there is no thread; otherwise it returns at once, and the thread is
   * running exactly if its worker has started and not yet exited.
   */
  lemma {:induction false} StartUpWaitsIff(s: State, c: nat)
    requires Inv(s) && Enabled(s, StartUp(c))
    ensures var s' := Step(s, StartUp(c));
      && (c in s'.callers <==> s.thread == None)
      && (c !in s'.callers ==> s' == s && (IsRunning(s') <==> CurrentAt(s) != Created && CurrentAt(s) != Exited))
  {
  }

  /** It also says StartUp blocks until the thread is started; a second caller does not wait. */
  lemma {:induction false} SecondStartUpDoesNotWait()
    ensures var s := Run([StartUp(0), StartUp(1)], 2);
      s.Some? && 1 !in s.value.callers && !IsRunning(s.value)
  {
    var all := [StartUp(0), StartUp(1)];
    assert Run(all, 0) == Some(INITIAL) && Run(all, 1).Some?;
  }

  // ---------- What a StartUp that waited finds ----------

  /** Not asked to quit. */
  predicate Fresh(at: WorkerAt) { at == Created || at == Looping(false) }

  predicate EffectiveAt(actions: seq<Action>, k: nat)
    requires k < |actions|
  {
    actions[k].ShutDown? && Run(actions, k).Some? && TakesEffect(Run(actions, k).value)
  }

  /** Some ShutDown took effect after position m and before n. */
  ghost predicate ShutDownBetween(actions: seq<Action>, m: nat, n: nat)
    requires n <= |actions|
  {
    exists k :: m < k < n && EffectiveAt(actions, k)
  }

  lemma {:induction false} BetweenNext(actions: seq<Action>, m: nat, n: nat)
    requires m < n - 1 && n <= |actions|
    ensures ShutDownBetween(actions, m, n) <==> ShutDownBetween(actions, m, n - 1) || EffectiveAt(actions, n - 1)
  {
  }

  /** A worker stays fresh until a ShutDown takes effect, and never becomes so again. */
  lemma {:induction false} FreshStep(s: State, a: Action, w: nat)
    requires Inv(s) && Enabled(s, a) && w < |s.workers|
    ensures w < |Step(s, a).workers|
    ensures Fresh(Step(s, a).workers[w]) <==> Fresh(s.workers[w]) && !(a.ShutDown? && TakesEffect(s))
  {
    if Fresh(s.workers[w]) { assert s.thread == Some(w); }
  }

  /** Action number m is a StartUp by `c` that makes worker `w`. */
  predicate Makes(actions: seq<Action>, m: nat, c: nat, w: nat)
    requires m < |actions|
  {
    && actions[m] == StartUp(c) && Run(actions, m + 1).Some? && Run(actions, m).Some?
    && Run(actions, m).value.thread == None && w == |Run(actions, m).value.workers|
  }

  lemma {:induction false} FreshSince(actions: seq<Action>, m: nat, n: nat, c: nat, w: nat)
    requires m < n <= |actions| && Makes(actions, m, c, w) && Run(actions, n).Some?
    ensures w < |Run(actions, n).value.workers|
    ensures Fresh(Run(actions, n).value.workers[w]) <==> !ShutDownBetween(actions, m, n)
  {
    if m < n - 1 {
      FreshSince(actions, m, n - 1, c, w);
      EveryRunInv(actions, n - 1);
      FreshStep(Run(actions, n - 1).value, actions[n - 1], w);
      BetweenNext(actions, m, n);
    }
  }

  lemma {:induction false} WaitsForItsWorker(actions: seq<Action>, m: nat, n: nat, c: nat, w: nat)
    requires m < n <= |actions| && Makes(actions, m, c, w) && Run(actions, n).Some?
    requires forall k :: m < k < n ==> actions[k] != Started(c)
    ensures InCall(Run(actions, n).value, c, Waiting(w))
  {
    if m < n - 1 { WaitsForItsWorker(actions, m, n - 1, c, w); }
  }

  /**
   * When a StartUp that made the thread returns, its worker is in its loop and not asked to quit
   * exactly if no ShutDown took effect since; and then the thread is running.
   */
  lemma {:induction false} StartedRunsIff(actions: seq<Action>, m: nat, n: nat, c: nat, w: nat)
    requires m < n < |actions| && Makes(actions, m, c, w) && actions[n] == Started(c) && Run(actions, n + 1).Some?
    requires forall k :: m < k < n ==> actions[k] != Started(c)
    ensures Run(actions, n).Some?
    ensures var s := Run(actions, n).value;
      && w < |s.workers|
      && (s.workers[w] == Looping(false) <==> !ShutDownBetween(actions, m, n))
      && (!ShutDownBetween(actions, m, n) ==> IsRunning(s) && s.thread == s.loop == Some(w))
  {
    WaitsForItsWorker(actions, m, n, c, w);
    FreshSince(actions, m, n, c, w);
    EveryRunInv(actions, n);
  }
}
