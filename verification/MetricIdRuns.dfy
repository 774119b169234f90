/** What the allocator keeps over every run of calls. */
module MetricIdRuns {
  import opened Common
  import opened RecencyList
  import opened Addresses
  import opened MetricIds
  import opened MetricIdInit
  import opened MetricIdClean

  // ---------- Sound: preserved by every call, with no condition ----------

  lemma {:induction false} IdsCons(e: Entry<RawAddress, int>, l: Devices)
    ensures IdsIn([e] + l) == {e.value} + IdsIn(l)
  {
    var r := [e] + l;
    assert r[0] == e;
    forall i | 0 <= i < |l| ensures l[i].value in IdsIn(r) { assert r[i + 1] == l[i]; }
  }

  lemma {:induction false} IdsDropAt(l: Devices, i: nat)
    requires i < |l|
    ensures IdsIn(l) == IdsIn(l[..i] + l[i + 1..]) + {l[i].value}
  {
    var r := l[..i] + l[i + 1..];
    forall j | 0 <= j < |r| ensures r[j].value in IdsIn(l) { assert r[j] == l[if j < i then j else j + 1]; }
    forall x | x in IdsIn(l) ensures x in IdsIn(r) + {l[i].value} {
      var j :| 0 <= j < |l| && l[j].value == x;
      if j != i { assert r[if j < i then j else j - 1] == l[j]; }
    }
  }

  lemma {:induction false} RangeOfIds(c: Limits, l: Devices)
    ensures AllInRange(c, l) <==> forall x :: x in IdsIn(l) ==> c.InRange(x)
  {
    forall i | 0 <= i < |l| ensures l[i].value in IdsIn(l) { }
  }

  lemma {:induction false} TouchKeepsIds(c: Limits, l: Devices, a: RawAddress)
    ensures IdsIn(Touch(l, a)) == IdsIn(l)
    ensures AllInRange(c, l) ==> AllInRange(c, Touch(l, a))
  {
    var i := IndexOf(l, a);
    if i < |l| {
      IdsDropAt(l, i);
      IdsCons(l[i], Without(l, a));
    }
    RangeOfIds(c, l);
    RangeOfIds(c, Touch(l, a));
  }

  /** Removing a device can only lose its own id. */
  lemma {:induction false} WithoutKeepsIds(c: Limits, l: Devices, a: RawAddress)
    requires Has(l, a)
    ensures IdsIn(l) == IdsIn(Without(l, a)) + {Lookup(l, a).value}
    ensures AllInRange(c, l) ==> AllInRange(c, Without(l, a))
  {
    IdsDropAt(l, IndexOf(l, a));
    RangeOfIds(c, l);
    RangeOfIds(c, Without(l, a));
  }

  /** A Put of a new device adds its id and can only lose that of the evicted one. */
  lemma {:induction false} PutKeepsIds(c: Limits, l: Devices, capacity: nat, a: RawAddress, id: int)
    requires |l| <= capacity && 0 < capacity && !Has(l, a)
    ensures var r, evicted := Put(l, capacity, a, id), Evicted(l, capacity, a);
      && IdsIn(l) + {id} == IdsIn(r) + (if evicted.Some? then {evicted.value.value} else {})
      && (AllInRange(c, l) && c.InRange(id) ==> AllInRange(c, r))
  {
    var n := if |l| == capacity then |l| - 1 else |l|;
    IdsCons(Entry(a, id), l[..n]);
    if n < |l| {
      IdsDropAt(l, n);
      assert l[..n] + l[n + 1..] == l[..n];
    } else {
      assert l[..n] == l;
    }
    RangeOfIds(c, l);
    RangeOfIds(c, Put(l, capacity, a, id));
  }

  lemma {:induction false} AllocateSound(c: Limits, s: State, a: RawAddress)
    requires Sound(c, s)
    ensures Sound(c, AllocateStep(c, s, a).0)
  {
    if Has(s.paired, a) {
      TouchFacts(s.paired, a);
      TouchKeepsIds(c, s.paired, a);
    } else if Has(s.temp, a) {
      TouchFacts(s.temp, a);
      TouchKeepsIds(c, s.temp, a);
    } else if !AllUsed(c, s.ids) {
      SearchFindsFirstFree(c, s.ids, s.next);
      var id := NextFree(c, s.ids, s.next, 0);
      PutFacts(s.temp, c.tempCap, a, id);
      PutKeepsIds(c, s.temp, c.tempCap, a, id);
    }
  }

  lemma {:induction false} SaveSound(c: Limits, s: State, a: RawAddress, saveOk: bool, forgetOk: bool)
    requires Sound(c, s)
    ensures Sound(c, SaveStep(c, s, a, saveOk, forgetOk).0)
  {
    if Has(s.paired, a) {
      TouchFacts(s.paired, a);
      TouchKeepsIds(c, s.paired, a);
    } else if Has(s.temp, a) && s.callbacks {
      MoveSound(c, s, a);
    }
  }

  lemma {:induction false} MoveSound(c: Limits, s: State, a: RawAddress)
    requires Sound(c, s) && !Has(s.paired, a) && Has(s.temp, a)
    ensures var temp, paired := Without(s.temp, a), Put(s.paired, c.pairedCap, a, Lookup(s.temp, a).value);
      && Distinct(temp) && |temp| <= c.tempCap && AllInRange(c, temp)
      && Distinct(paired) && |paired| <= c.pairedCap && AllInRange(c, paired)
  {
    var id := Lookup(s.temp, a).value;
    WithoutFacts(s.temp, a);
    WithoutKeepsIds(c, s.temp, a);
    RangeOfIds(c, s.temp);
    PutFacts(s.paired, c.pairedCap, a, id);
    PutKeepsIds(c, s.paired, c.pairedCap, a, id);
  }

  lemma {:induction false} ForgetSound(c: Limits, s: State, a: RawAddress, forgetOk: bool)
    requires Sound(c, s)
    ensures Sound(c, ForgetStep(s, a, forgetOk).0)
  {
    if Has(s.paired, a) {
      WithoutFacts(s.paired, a);
      WithoutKeepsIds(c, s.paired, a);
    }
  }

  /** The ids of the map and of what is left are among those of the map and of what was found. */
  lemma {:induction false} LoadedIdsIn(capacity: nat, found: Devices, l: Devices)
    requires Distinct(found) && |found| <= capacity && Distinct(l) && |l| <= capacity
    ensures IdsIn(l) <= IdsIn(Reversed(l) + Left(capacity, found, l)) <= IdsIn(l) + IdsIn(found)
  {
    var left := Left(capacity, found, l);
    var r := Reversed(l) + left;
    LeftFacts(capacity, found, l);
    forall i | 0 <= i < |l| ensures l[i].value in IdsIn(r) { assert r[|l| - 1 - i] == l[i]; }
    forall i | 0 <= i < |r| ensures r[i].value in IdsIn(l) + IdsIn(found) {
      if i < |l| {
        assert r[i] == l[|l| - 1 - i];
      } else {
        HasIndex(left, i - |l|);
        InIds(found, left[i - |l|].key);
      }
    }
  }

  lemma {:induction false} LoadedDistinct(capacity: nat, found: Devices, l: Devices)
    requires Distinct(found) && |found| <= capacity && Distinct(l) && |l| <= capacity
    ensures Distinct(Reversed(l) + Left(capacity, found, l))
  {
    var left := Left(capacity, found, l);
    LeftFacts(capacity, found, l);
    forall i, j | 0 <= i < |l| && 0 <= j < |left| ensures Reversed(l)[i].key != left[j].key {
      HasIndex(left, j);
      HasIndex(l, |l| - 1 - i);
    }
  }

  lemma {:induction false} InitSound(c: Limits, s: State, order: Devices, refused: set<RawAddress>)
    requires Sound(c, s) && Distinct(order)
    ensures Sound(c, InitStep(c, s, order, refused).0)
  {
    if InitStep(c, s, order, refused).1 == Done(true) {
      LoadedIs(c, s, order, refused);
      LoadedRest(c, s, order, refused);
      LoadedDistinct(c.pairedCap, s.paired, order);
      LeftFacts(c.pairedCap, s.paired, order);
      LoadedIdsIn(c.pairedCap, s.paired, order);
      RangeOfIds(c, order);
      RangeOfIds(c, s.paired);
      RangeOfIds(c, Loaded(c, s, order, refused).paired);
    }
  }

  /** Init is given a map, so its entries have distinct keys; nothing else is asked of a call. */
  ghost predicate WellFormed(e: Event) {
    e.Init? ==> Distinct(e.order)
  }

  lemma {:induction false} StepSound(c: Limits, s: State, e: Event)
    requires Sound(c, s) && WellFormed(e)
    ensures Sound(c, Step(c, s, e).0)
  {
    match e
    case Init(order, refused) => InitSound(c, s, order, refused);
    case Close =>
    case Allocate(a) => AllocateSound(c, s, a);
    case Save(a, saveOk, forgetOk) => SaveSound(c, s, a, saveOk, forgetOk);
    case Forget(a, forgetOk) => ForgetSound(c, s, a, forgetOk);
  }

  // ---------- Exact: preserved by every call, and by Init on exactly the clean maps ----------

  /** The bindings of a state after its caches changed only in order. */
  lemma {:induction false} SameBindings(s: State, s': State)
    requires Exact(s) && s'.ids == s.ids
    requires forall a :: Lookup(s'.paired, a) == Lookup(s.paired, a) && Lookup(s'.temp, a) == Lookup(s.temp, a)
    ensures Exact(s')
  {
    assert forall a :: IdOf(s', a) == IdOf(s, a);
  }

  /** Adding a fresh device under a fresh id, and forgetting at most one other. */
  lemma {:induction false} ExactChange(s: State, s': State, a: RawAddress, id: int, evicted: Option<Entry<RawAddress, int>>)
    requires Exact(s) && s'.ids == DropId(s.ids + {id}, evicted)
    requires IdOf(s, a) == Some(id) || (IdOf(s, a) == None && id !in s.ids)
    requires IdOf(s', a) == Some(id)
    requires evicted.Some? ==> IdOf(s, evicted.value.key) == Some(evicted.value.value)
                               && evicted.value.key != a && IdOf(s', evicted.value.key) == None
    requires forall b :: b != a && !(evicted.Some? && b == evicted.value.key) ==> IdOf(s', b) == IdOf(s, b)
    requires forall b :: Lookup(s'.paired, b) == None || Lookup(s'.temp, b) == None
    ensures Exact(s')
  {
    forall b, d | b != d && IdOf(s', b).Some? ensures IdOf(s', b) != IdOf(s', d) { }
    forall x | x in s'.ids ensures exists b :: IdOf(s', b) == Some(x) {
      if x != id {
        var b :| IdOf(s, b) == Some(x);
        assert IdOf(s', b) == Some(x);
      }
    }
  }

  /** In an exact state no id is lost, so some id is free. */
  lemma {:induction false} ExactLeavesFree(c: Limits, s: State)
    requires Sound(c, s) && Exact(s)
    ensures Held(s, {}) && !AllUsed(c, s.ids)
  {
    forall x | x in s.ids ensures x in IdsIn(s.paired) + IdsIn(s.temp) {
      var a :| IdOf(s, a) == Some(x);
      if Has(s.paired, a) { InIds(s.paired, a); } else { InIds(s.temp, a); }
    }
    SomeIdFree(c, s, {});
  }

  lemma {:induction false} AllocateExact(c: Limits, s: State, a: RawAddress)
    requires Sound(c, s) && Exact(s)
    ensures Exact(AllocateStep(c, s, a).0) && AllocateStep(c, s, a).1 != Hang
  {
    TouchFacts(s.paired, a);
    TouchFacts(s.temp, a);
    ExactLeavesFree(c, s);
    if IdOf(s, a).Some? {
      SameBindings(s, AllocateStep(c, s, a).0);
    } else {
      SearchFindsFirstFree(c, s.ids, s.next);
      AssignExact(c, s, a, NextFree(c, s.ids, s.next, 0));
    }
  }

  lemma {:induction false} AssignExact(c: Limits, s: State, a: RawAddress, id: int)
    requires Sound(c, s) && Exact(s) && IdOf(s, a) == None && id !in s.ids
    ensures Exact(Assigned(c, s, a, id))
  {
    PutFacts(s.temp, c.tempCap, a, id);
    ExactChange(s, Assigned(c, s, a, id), a, id, Evicted(s.temp, c.tempCap, a));
  }

  lemma {:induction false} SaveExact(c: Limits, s: State, a: RawAddress, saveOk: bool, forgetOk: bool)
    requires Sound(c, s) && Exact(s)
    ensures Exact(SaveStep(c, s, a, saveOk, forgetOk).0)
  {
    if Has(s.paired, a) {
      TouchFacts(s.paired, a);
      SameBindings(s, SaveStep(c, s, a, saveOk, forgetOk).0);
    } else if Has(s.temp, a) && s.callbacks {
      MoveExact(c, s, a, saveOk, forgetOk);
    }
  }

  lemma {:induction false} MoveExact(c: Limits, s: State, a: RawAddress, saveOk: bool, forgetOk: bool)
    requires Sound(c, s) && Exact(s) && !Has(s.paired, a) && Has(s.temp, a)
    ensures Exact(Moved(c, s.(temp := Without(s.temp, a)), a, Lookup(s.temp, a).value, saveOk, forgetOk))
  {
    var id, evicted := Lookup(s.temp, a).value, Evicted(s.paired, c.pairedCap, a);
    var s' := Moved(c, s.(temp := Without(s.temp, a)), a, id, saveOk, forgetOk);
    WithoutFacts(s.temp, a);
    PutFacts(s.paired, c.pairedCap, a, id);
    assert IdOf(s, a) == Some(id);
    assert s.ids + {id} == s.ids;
    forall b ensures Lookup(s'.paired, b) == None || Lookup(s'.temp, b) == None {
      assert Lookup(s.paired, b) == None || Lookup(s.temp, b) == None;
    }
    forall b | b != a && !(evicted.Some? && b == evicted.value.key) ensures IdOf(s', b) == IdOf(s, b) { }
    ExactChange(s, s', a, id, evicted);
  }

  lemma {:induction false} ForgetExact(c: Limits, s: State, a: RawAddress, forgetOk: bool)
    requires Sound(c, s) && Exact(s)
    ensures Exact(ForgetStep(s, a, forgetOk).0)
  {
    var s' := ForgetStep(s, a, forgetOk).0;
    if Has(s.paired, a) {
      WithoutFacts(s.paired, a);
      assert IdOf(s, a) == Lookup(s.paired, a);
      forall b ensures IdOf(s', b) == if b == a then None else IdOf(s, b) { }
      forall x | x in s'.ids ensures exists b :: IdOf(s', b) == Some(x) {
        var b :| IdOf(s, b) == Some(x);
        assert IdOf(s', b) == Some(x);
      }
    }
  }

  lemma {:induction false} StepExact(c: Limits, s: State, e: Event)
    requires Sound(c, s) && Exact(s) && WellFormed(e)
    ensures Step(c, s, e).1 != Hang
    ensures Exact(Step(c, s, e).0) <==> (e.Init? && Step(c, s, e).1 == Done(true) ==> CleanFor(c, s, e.order))
  {
    match e
    case Init(order, refused) => if Step(c, s, e).1 == Done(true) { InitExactIff(c, s, order, refused); }
    case Close =>
    case Allocate(a) => AllocateExact(c, s, a);
    case Save(a, saveOk, forgetOk) => SaveExact(c, s, a, saveOk, forgetOk);
    case Forget(a, forgetOk) => ForgetExact(c, s, a, forgetOk);
  }

  // ---------- Whole runs ----------

  /** The allocator as constructed, with what the persistent store holds at that time. */
  function Start(c: Limits, store: map<RawAddress, int>): State {
    State([], [], {}, c.minId, false, false, store)
  }

  /** The state after a run, or None if the process died or hangs. */
  function Run(c: Limits, s: State, events: seq<Event>): Option<State>
    requires c.Roomy()
  {
    if events == [] then Some(s)
    else
      var before := Run(c, s, events[..|events| - 1]);
      if before == None then None
      else
        var (after, reply) := Step(c, before.value, events[|events| - 1]);
        if reply == Fatal || reply == Hang then None else Some(after)
  }

  /** Every Init that takes effect is given a clean map for the state it finds. */
  ghost predicate CleanRun(c: Limits, s: State, events: seq<Event>)
    requires c.Roomy()
  {
    events != [] ==>
      && CleanRun(c, s, events[..|events| - 1])
      && var e := events[|events| - 1];
         var before := Run(c, s, events[..|events| - 1]);
         e.Init? && before.Some? && !before.value.initialized ==> CleanFor(c, before.value, e.order)
  }

  lemma {:induction false} RunSound(c: Limits, s: State, events: seq<Event>)
    requires Sound(c, s)
    requires forall e :: e in events ==> WellFormed(e)
    ensures Run(c, s, events).Some? ==> Sound(c, Run(c, s, events).value)
  {
    if events != [] {
      var before, e := events[..|events| - 1], events[|events| - 1];
      RunSound(c, s, before);
      if Run(c, s, before).Some? { StepSound(c, Run(c, s, before).value, e); }
    }
  }

  lemma {:induction false} RunExact(c: Limits, s: State, events: seq<Event>)
    requires Sound(c, s) && Exact(s)
    requires forall e :: e in events ==> WellFormed(e)
    requires CleanRun(c, s, events)
    ensures Run(c, s, events).Some? ==> Exact(Run(c, s, events).value)
  {
    if events != [] {
      var before, e := events[..|events| - 1], events[|events| - 1];
      RunExact(c, s, before);
      RunSound(c, s, before);
      if Run(c, s, before).Some? { StepExact(c, Run(c, s, before).value, e); }
    }
  }

  /** From construction on, in every run: bounded caches, ids in range, and nothing paired without callbacks. */
  lemma {:induction false} EveryRunSound(c: Limits, store: map<RawAddress, int>, events: seq<Event>)
    requires c.Roomy()
    requires forall e :: e in events ==> WellFormed(e)
    ensures var r := Run(c, Start(c, store), events); r.Some? ==> Sound(c, r.value)
  {
    RunSound(c, Start(c, store), events);
  }

  /**
   * From construction on, in every run with clean Inits: used ids are exactly the cached ones, each
   * held once, and so no call hangs.
   */
  lemma {:induction false} EveryCleanRunExact(c: Limits, store: map<RawAddress, int>, events: seq<Event>, next: Event)
    requires c.Roomy() && WellFormed(next)
    requires forall e :: e in events ==> WellFormed(e)
    requires CleanRun(c, Start(c, store), events)
    ensures var r := Run(c, Start(c, store), events);
      r.Some? ==> Sound(c, r.value) && Exact(r.value) && Step(c, r.value, next).1 != Hang
  {
    RunSound(c, Start(c, store), events);
    RunExact(c, Start(c, store), events);
    var r := Run(c, Start(c, store), events);
    if r.Some? { StepExact(c, r.value, next); }
  }

  /**
   * A device not cached gets the first free id at or after the cursor, in cyclic order, and the
   * cursor moves just past it; a cached device gets its own, and the cursor stays. The search
   * goes round for ever exactly if the device is not cached and every id is in use.
   */
  lemma {:induction false} AllocatesInCyclicOrder(c: Limits, s: State, a: RawAddress)
    requires Sound(c, s)
    ensures var (s', reply) := AllocateStep(c, s, a);
      && (reply == Hang <==> IdOf(s, a) == None && AllUsed(c, s.ids))
      && (reply != Hang ==> reply.Id? && IdOf(s', a) == Some(reply.id))
      && (IdOf(s, a).Some? ==> reply == Id(IdOf(s, a).value) && s'.next == s.next && s'.ids == s.ids)
      && (IdOf(s, a) == None && reply.Id? ==> FirstFree(c, s.ids, s.next, reply.id) && s'.next == c.Ahead(reply.id, 1))
  {
    TouchFacts(s.paired, a);
    TouchFacts(s.temp, a);
    if IdOf(s, a) == None && !AllUsed(c, s.ids) {
      SearchFindsFirstFree(c, s.ids, s.next);
      PutFacts(s.temp, c.tempCap, a, NextFree(c, s.ids, s.next, 0));
    }
  }

  /** After Init the cursor is just past the largest id it was given; at the smallest if there is none, or none past it. */
  lemma {:induction false} InitCursor(c: Limits, s: State, order: Devices, refused: set<RawAddress>)
    requires c.Roomy() && InitStep(c, s, order, refused).1 == Done(true)
    ensures var next := InitStep(c, s, order, refused).0.next;
      if order == [] || c.maxId in IdsIn(order) then next == c.minId
      else next - 1 in IdsIn(order) && forall x :: x in IdsIn(order) ==> x < next
  {
    LoadedRest(c, s, order, refused);
    var next := PastAll(c.minId, order);
    if order != [] {
      assert next > order[0].value >= c.minId;
      var i :| 0 <= i < |order| && next == order[i].value + 1;
      assert order[i].value in IdsIn(order);
    }
  }

  lemma {:induction false} RunSnoc(c: Limits, s: State, events: seq<Event>, e: Event)
    requires c.Roomy() && Run(c, s, events).Some?
    ensures var (s', reply) := Step(c, Run(c, s, events).value, e);
      Run(c, s, events + [e]) == if reply == Fatal || reply == Hang then None else Some(s')
  {
    assert (events + [e])[..|events|] == events;
  }

  lemma {:induction false} RunOn(c: Limits, s0: State, events: seq<Event>, e: Event, s: State, s': State, reply: Reply)
    requires c.Roomy() && Run(c, s0, events) == Some(s)
    requires Step(c, s, e) == (s', reply) && reply != Fatal && reply != Hang
    ensures Run(c, s0, events + [e]) == Some(s')
  {
    RunSnoc(c, s0, events, e);
  }

  // ---------- Inits that are not clean ----------

  /** A device scanned before Init shares its id with one the map brings. */
  lemma {:induction false} ScanBeforeInit(a: RawAddress, b: RawAddress)
    requires a != b
    ensures var s := Run(FLUORIDE, Start(FLUORIDE, map[]), [Allocate(a)] + [Init([Entry(b, 1)], {})]);
      s.Some? && !Exact(s.value)
  {
    var c := FLUORIDE;
    var s0, order := Start(c, map[]), [Entry(b, 1)];
    var s1 := AllocateStep(c, s0, a).0;
    AllocateSound(c, s0, a);
    AllocateExact(c, s0, a);
    assert c.Ahead(1, 0) == 1 && NextFree(c, {}, 1, 0) == 1;
    assert [] + [Allocate(a)] == [Allocate(a)];
    RunSnoc(c, s0, [], Allocate(a));
    RunSnoc(c, s0, [Allocate(a)], Init(order, {}));
    InitExactIff(c, s1, order, {});
    assert s1.temp == [Entry(a, 1)] && s1.temp[0].value in IdsIn(s1.temp);
    assert order[0].value in IdsIn(s1.temp);
  }

  /** Init accepts a map that gives one id to two devices. */
  lemma {:induction false} SameIdTwice(a: RawAddress, b: RawAddress, id: int)
    requires a != b && FLUORIDE.InRange(id)
    ensures var s := Run(FLUORIDE, Start(FLUORIDE, map[]), [Init([Entry(a, id), Entry(b, id)], {})]);
      s.Some? && !Exact(s.value)
  {
    var s0, order := Start(FLUORIDE, map[]), [Entry(a, id), Entry(b, id)];
    assert [Init(order, {})][..0] == [] && Run(FLUORIDE, s0, []) == Some(s0);
    InitExactIff(FLUORIDE, s0, order, {});
    assert order[0].value == order[1].value;
  }

  // ---------- A device keeps its id for as long as it is cached ----------

  /** The call is an Init that brings the device under another id. */
  predicate Renames(c: Limits, s: State, e: Event, a: RawAddress)
    requires c.Roomy()
  {
    e.Init? && Step(c, s, e).1 == Done(true) && Has(e.order, a) && Lookup(e.order, a) != IdOf(s, a)
  }

  lemma {:induction false} StepKeepsIdIff(c: Limits, s: State, e: Event, a: RawAddress)
    requires Sound(c, s) && Exact(s) && WellFormed(e)
    requires IdOf(s, a).Some? && IdOf(Step(c, s, e).0, a).Some?
    ensures IdOf(Step(c, s, e).0, a) == IdOf(s, a) <==> !Renames(c, s, e, a)
  {
    match e
    case Init(order, refused) => if Step(c, s, e).1 == Done(true) { BindsInit(c, s, order, refused); }
    case Close =>
    case Allocate(b) => AllocateKeepsId(c, s, b, a);
    case Save(b, saveOk, forgetOk) => SaveKeepsId(c, s, b, saveOk, forgetOk, a);
    case Forget(b, forgetOk) => WithoutFacts(s.paired, b);
  }

  lemma {:induction false} AllocateKeepsId(c: Limits, s: State, b: RawAddress, a: RawAddress)
    requires Sound(c, s) && IdOf(s, a).Some? && IdOf(AllocateStep(c, s, b).0, a).Some?
    ensures IdOf(AllocateStep(c, s, b).0, a) == IdOf(s, a)
  {
    TouchFacts(s.paired, b);
    TouchFacts(s.temp, b);
    if IdOf(s, b) == None { PutFacts(s.temp, c.tempCap, b, NextFree(c, s.ids, s.next, 0)); }
  }

  /** Pairing moves a device, and its id with it. */
  lemma {:induction false} SaveKeepsId(c: Limits, s: State, b: RawAddress, saveOk: bool, forgetOk: bool, a: RawAddress)
    requires Sound(c, s) && Exact(s) && IdOf(s, a).Some? && IdOf(SaveStep(c, s, b, saveOk, forgetOk).0, a).Some?
    ensures IdOf(SaveStep(c, s, b, saveOk, forgetOk).0, a) == IdOf(s, a)
  {
    TouchFacts(s.paired, b);
    if !Has(s.paired, b) && Has(s.temp, b) && s.callbacks {
      WithoutFacts(s.temp, b);
      PutFacts(s.paired, c.pairedCap, b, Lookup(s.temp, b).value);
      assert Lookup(s.paired, a) == None || Lookup(s.temp, a) == None;
    }
  }

  /** The device is cached all along the run, and no Init of it brings the device under another id. */
  ghost predicate CachedThroughout(c: Limits, s: State, events: seq<Event>, a: RawAddress)
    requires c.Roomy()
  {
    && (forall n :: 0 <= n <= |events| ==> Run(c, s, events[..n]).Some? && IdOf(Run(c, s, events[..n]).value, a).Some?)
    && (forall n :: 0 <= n < |events| ==> !Renames(c, Run(c, s, events[..n]).value, events[n], a))
  }

  /** A device cached all along a run, whether scanned, saved or both, is still answered with its first id. */
  lemma {:induction false} IdIsStable(c: Limits, s: State, events: seq<Event>, a: RawAddress)
    requires Sound(c, s) && Exact(s)
    requires forall e :: e in events ==> WellFormed(e)
    requires CleanRun(c, s, events)
    requires CachedThroughout(c, s, events, a)
    ensures IdOf(s, a).Some? && Run(c, s, events).Some?
    ensures AllocateStep(c, Run(c, s, events).value, a).1 == Id(IdOf(s, a).value)
    ensures IdOf(Run(c, s, events).value, a) == IdOf(s, a)
  {
    assert events[..|events|] == events;
    assert Run(c, s, events[..0]) == Some(s);
    if events != [] {
      var before, e := events[..|events| - 1], events[|events| - 1];
      CachedBefore(c, s, events, a);
      IdIsStable(c, s, before, a);
      RunSound(c, s, before);
      RunExact(c, s, before);
      StepKeepsIdIff(c, Run(c, s, before).value, e, a);
    }
  }

  lemma {:induction false} CachedBefore(c: Limits, s: State, events: seq<Event>, a: RawAddress)
    requires c.Roomy() && events != [] && CachedThroughout(c, s, events, a)
    ensures CachedThroughout(c, s, events[..|events| - 1], a)
  {
    var before := events[..|events| - 1];
    assert forall n :: 0 <= n <= |before| ==> before[..n] == events[..n];
  }
}
