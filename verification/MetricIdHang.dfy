/**
 * Ids lost at Init, and when so many can be lost that the search for a free id never ends.
 * Close keeps the callbacks, so devices can be saved after it; an Init whose map brings such a
 * device under another id leaves the old id in use and held by nobody.
 */
module MetricIdHang {
  import opened Common
  import opened RecencyList
  import opened Addresses
  import opened MetricIds
  import opened MetricIdInit
  import opened MetricIdClean
  import opened MetricIdRuns

  // ---------- Only Init loses ids, at most those of the devices it finds ----------

  lemma {:induction false} AllocateHeld(c: Limits, s: State, a: RawAddress, lost: set<int>)
    requires Sound(c, s) && Held(s, lost)
    ensures Held(AllocateStep(c, s, a).0, lost)
  {
    TouchKeepsIds(c, s.paired, a);
    TouchKeepsIds(c, s.temp, a);
    if IdOf(s, a) == None && !AllUsed(c, s.ids) {
      PutKeepsIds(c, s.temp, c.tempCap, a, NextFree(c, s.ids, s.next, 0));
    }
  }

  lemma {:induction false} SaveHeld(c: Limits, s: State, a: RawAddress, saveOk: bool, forgetOk: bool, lost: set<int>)
    requires Sound(c, s) && Held(s, lost)
    ensures Held(SaveStep(c, s, a, saveOk, forgetOk).0, lost)
  {
    TouchKeepsIds(c, s.paired, a);
    if !Has(s.paired, a) && Has(s.temp, a) {
      WithoutKeepsIds(c, s.temp, a);
      PutKeepsIds(c, s.paired, c.pairedCap, a, Lookup(s.temp, a).value);
    }
  }

  lemma {:induction false} ForgetHeld(c: Limits, s: State, a: RawAddress, forgetOk: bool, lost: set<int>)
    requires Held(s, lost)
    ensures Held(ForgetStep(s, a, forgetOk).0, lost)
  {
    if Has(s.paired, a) { WithoutKeepsIds(c, s.paired, a); }
  }

  lemma {:induction false} InitHeld(c: Limits, s: State, order: Devices, refused: set<RawAddress>)
    requires Sound(c, s) && Held(s, {}) && Distinct(order) && InitStep(c, s, order, refused).1 == Done(true)
    ensures Held(InitStep(c, s, order, refused).0, IdsIn(s.paired))
  {
    var s' := InitStep(c, s, order, refused).0;
    LoadedIs(c, s, order, refused);
    LoadedRest(c, s, order, refused);
    LoadedIdsIn(c.pairedCap, s.paired, order);
    forall x | x in s'.ids ensures x in IdsIn(s'.paired) + IdsIn(s'.temp) + IdsIn(s.paired) {
      LoadedIds(c, s, order, refused, x);
      assert x in s.ids || x in IdsIn(order);
    }
  }

  /** How many ids may be lost: none until Init, and then no more than there are places for paired devices. */
  function MayLose(c: Limits, s: State): nat {
    if s.initialized then c.pairedCap else 0
  }

  /** The ids lost after a call: Init loses those of the devices it finds, Close forgets about ids altogether. */
  function LostAfter(c: Limits, s: State, e: Event, lost: set<int>): set<int>
    requires c.Roomy()
  {
    if e.Init? && Step(c, s, e).1 == Done(true) then IdsIn(s.paired)
    else if e.Close? && s.initialized then {}
    else lost
  }

  lemma {:induction false} StepHeld(c: Limits, s: State, e: Event, lost: set<int>)
    requires Sound(c, s) && WellFormed(e) && Held(s, lost) && (s.initialized || lost == {})
    ensures Held(Step(c, s, e).0, LostAfter(c, s, e, lost))
  {
    match e
    case Init(order, refused) => if Step(c, s, e).1 == Done(true) { InitHeld(c, s, order, refused); }
    case Close =>
    case Allocate(a) => AllocateHeld(c, s, a, lost);
    case Save(a, saveOk, forgetOk) => SaveHeld(c, s, a, saveOk, forgetOk, lost);
    case Forget(a, forgetOk) => ForgetHeld(c, s, a, forgetOk, lost);
  }

  lemma {:induction false} FewLost(c: Limits, s: State, e: Event, lost: set<int>)
    requires Sound(c, s) && |lost| <= MayLose(c, s)
    ensures |LostAfter(c, s, e, lost)| <= MayLose(c, Step(c, s, e).0)
  {
    FewIds(s.paired);
  }

  lemma {:induction false} StepLoses(c: Limits, s: State, e: Event, lost: set<int>)
    requires Sound(c, s) && WellFormed(e) && |lost| <= MayLose(c, s) && Held(s, lost)
    ensures Held(Step(c, s, e).0, LostAfter(c, s, e, lost))
    ensures |LostAfter(c, s, e, lost)| <= MayLose(c, Step(c, s, e).0)
  {
    StepHeld(c, s, e, lost);
    FewLost(c, s, e, lost);
  }

  lemma {:induction false} RunLoses(c: Limits, store: map<RawAddress, int>, events: seq<Event>) returns (lost: set<int>)
    requires c.Roomy() && Run(c, Start(c, store), events).Some?
    requires forall e :: e in events ==> WellFormed(e)
    ensures var s := Run(c, Start(c, store), events).value; |lost| <= MayLose(c, s) && Held(s, lost)
  {
    lost := {};
    if events != [] {
      var before, e := events[..|events| - 1], events[|events| - 1];
      lost := RunLoses(c, store, before);
      RunSound(c, Start(c, store), before);
      var s := Run(c, Start(c, store), before).value;
      StepLoses(c, s, e, lost);
      lost := LostAfter(c, s, e, lost);
    }
  }

  /** With an id for every place, and one more for every paired place that Init may find, no run hangs. */
  lemma {:induction false} NoRunHangs(c: Limits, store: map<RawAddress, int>, events: seq<Event>, next: Event)
    requires c.Roomy() && 2 * c.pairedCap + c.tempCap < c.Size()
    requires forall e :: e in events ==> WellFormed(e)
    ensures var r := Run(c, Start(c, store), events); r.Some? ==> Step(c, r.value, next).1 != Hang
  {
    var r := Run(c, Start(c, store), events);
    if r.Some? {
      RunSound(c, Start(c, store), events);
      var lost := RunLoses(c, store, events);
      SomeIdFree(c, r.value, lost);
    }
  }

  // ---------- Saving after Close ----------

  ghost predicate AllDifferent(ds: seq<RawAddress>) {
    forall i, j :: 0 <= i < j < |ds| ==> ds[i] != ds[j]
  }

  /** Init without devices, and Close. */
  const REOPENED: seq<Event> := [Init([], {})] + [Close]

  /** Devices n to m - 1, the last one first, with ids from the smallest on. */
  function Cached(c: Limits, ds: seq<RawAddress>, n: nat, m: nat): (l: Devices)
    requires n <= m <= |ds|
    ensures |l| == m - n
  {
    if m == n then [] else [Entry(ds[m - 1], c.minId + m - 1)] + Cached(c, ds, n, m - 1)
  }

  /** The first m ids. */
  function FirstOf(c: Limits, m: nat): (ids: set<int>)
    ensures forall x :: x in ids <==> c.minId <= x < c.minId + m
  {
    if m == 0 then {} else FirstOf(c, m - 1) + {c.minId + m - 1}
  }

  function Stores(c: Limits, ds: seq<RawAddress>, n: nat): map<RawAddress, int>
    requires n <= |ds|
  {
    if n == 0 then map[] else Stores(c, ds, n - 1)[ds[n - 1] := c.minId + n - 1]
  }

  /** The first n devices paired and those up to m scanned. */
  ghost function Filled(c: Limits, ds: seq<RawAddress>, n: nat, m: nat): State
    requires n <= m <= |ds|
  {
    State(Cached(c, ds, 0, n), Cached(c, ds, n, m), FirstOf(c, m), c.minId + m, false, true, Stores(c, ds, n))
  }

  lemma {:induction false} CachedHas(c: Limits, ds: seq<RawAddress>, n: nat, m: nat, i: nat)
    requires AllDifferent(ds) && n <= m <= |ds| && i < |ds|
    ensures Has(Cached(c, ds, n, m), ds[i]) <==> n <= i < m
  {
    if n < m {
      var e, before := Entry(ds[m - 1], c.minId + m - 1), Cached(c, ds, n, m - 1);
      CachedHas(c, ds, n, m - 1, i);
      HasCons(e, before, ds[i]);
      assert Cached(c, ds, n, m) == [e] + before;
      assert ds[i] == ds[m - 1] <==> i == m - 1;
    }
  }

  lemma {:induction false} HasCons(e: Entry<RawAddress, int>, l: Devices, a: RawAddress)
    ensures Has([e] + l, a) <==> e.key == a || Has(l, a)
  {
    ConsFacts(e, l);
  }

  lemma {:induction false} FirstIds(c: Limits, ids: set<int>, next: int)
    requires c.InRange(next) && next !in ids
    ensures NextFree(c, ids, next, 0) == next && !AllUsed(c, ids)
  {
    assert c.Ahead(next, 0) == next;
  }

  /** Scanning a new device, with places and ids ahead. */
  lemma {:induction false} ScanNew(c: Limits, s: State, a: RawAddress)
    requires c.Roomy() && !Has(s.paired, a) && !Has(s.temp, a) && |s.temp| < c.tempCap
    requires c.minId <= s.next < c.maxId && s.next !in s.ids
    ensures AllocateStep(c, s, a)
            == (s.(temp := [Entry(a, s.next)] + s.temp, ids := s.ids + {s.next}, next := s.next + 1), Id(s.next))
  {
    FirstIds(c, s.ids, s.next);
  }

  /** Saving the only device scanned, with places ahead. */
  lemma {:induction false} SaveNew(c: Limits, s: State, a: RawAddress, id: int)
    requires c.Roomy() && !Has(s.paired, a) && s.temp == [Entry(a, id)] && |s.paired| < c.pairedCap && s.callbacks
    ensures SaveStep(c, s, a, true, true)
            == (s.(temp := [], paired := [Entry(a, id)] + s.paired, store := s.store[a := id]), Done(true))
  {
    assert IndexOf(s.temp, a) == 0 && s.temp[..0] + s.temp[1..] == [];
  }

  lemma {:induction false} ScanFills(c: Limits, ds: seq<RawAddress>, n: nat, m: nat)
    requires c.Roomy() && AllDifferent(ds) && n < m <= |ds| && n <= c.pairedCap && m - n <= c.tempCap
    ensures Step(c, Filled(c, ds, n, m - 1), Allocate(ds[m - 1])) == (Filled(c, ds, n, m), Id(c.minId + m - 1))
  {
    var s := Filled(c, ds, n, m - 1);
    CachedHas(c, ds, 0, n, m - 1);
    CachedHas(c, ds, n, m - 1, m - 1);
    ScanNew(c, s, ds[m - 1]);
    assert Cached(c, ds, n, m) == [Entry(ds[m - 1], s.next)] + s.temp;
    assert FirstOf(c, m) == s.ids + {s.next};
  }

  lemma {:induction false} SaveFills(c: Limits, ds: seq<RawAddress>, n: nat)
    requires c.Roomy() && AllDifferent(ds) && 0 < n <= |ds| && n <= c.pairedCap
    ensures Step(c, Filled(c, ds, n - 1, n), Save(ds[n - 1], true, true)) == (Filled(c, ds, n, n), Done(true))
  {
    CachedHas(c, ds, 0, n - 1, n - 1);
    assert Cached(c, ds, n - 1, n - 1) == [] && Cached(c, ds, n - 1, n) == [Entry(ds[n - 1], c.minId + n - 1)];
    SaveNew(c, Filled(c, ds, n - 1, n), ds[n - 1], c.minId + n - 1);
  }

  lemma {:induction false} CachedDistinct(c: Limits, ds: seq<RawAddress>, n: nat, m: nat)
    requires AllDifferent(ds) && n <= m <= |ds|
    ensures Distinct(Cached(c, ds, n, m))
  {
    if n < m {
      var e, before := Entry(ds[m - 1], c.minId + m - 1), Cached(c, ds, n, m - 1);
      CachedDistinct(c, ds, n, m - 1);
      CachedHas(c, ds, n, m - 1, m - 1);
      DistinctCons(e, before);
      assert Cached(c, ds, n, m) == [e] + before;
    }
  }

  lemma {:induction false} DistinctCons(e: Entry<RawAddress, int>, l: Devices)
    requires Distinct(l) && !Has(l, e.key)
    ensures Distinct([e] + l)
  {
    ConsFacts(e, l);
  }

  lemma {:induction false} CachedInRange(c: Limits, ds: seq<RawAddress>, n: nat, m: nat)
    requires n <= m <= |ds| && m < c.Size()
    ensures AllInRange(c, Cached(c, ds, n, m))
  {
    if n < m {
      CachedInRange(c, ds, n, m - 1);
    }
  }

  lemma {:induction false} FilledIsSound(c: Limits, ds: seq<RawAddress>, n: nat, m: nat)
    requires c.Roomy() && AllDifferent(ds) && n <= m <= |ds| && n <= c.pairedCap && m - n <= c.tempCap
    ensures Sound(c, Filled(c, ds, n, m))
  {
    CachedDistinct(c, ds, 0, n);
    CachedDistinct(c, ds, n, m);
    CachedInRange(c, ds, 0, n);
    CachedInRange(c, ds, n, m);
  }

  /** A run that scans and saves the first n devices, one after the other. */
  lemma {:induction false} SaveMany(c: Limits, ds: seq<RawAddress>, n: nat) returns (events: seq<Event>)
    requires c.Roomy() && AllDifferent(ds) && n <= |ds| && n <= c.pairedCap
    ensures Run(c, Start(c, map[]), events) == Some(Filled(c, ds, n, n))
    ensures forall e :: e in events ==> WellFormed(e)
  {
    if n == 0 {
      events := REOPENED;
      Reopened(c);
    } else {
      var before := SaveMany(c, ds, n - 1);
      ScanOneMore(c, ds, n - 1, n, before);
      var scanned := before + [Allocate(ds[n - 1])];
      SaveLast(c, ds, n, scanned);
      events := scanned + [Save(ds[n - 1], true, true)];
    }
  }

  lemma {:induction false} Reopened(c: Limits)
    requires c.Roomy()
    ensures Run(c, Start(c, map[]), REOPENED) == Some(State([], [], {}, c.minId, false, true, map[]))
  {
    var s0 := Start(c, map[]);
    assert [] + [Init([], {})] == [Init([], {})];
    RunSnoc(c, s0, [], Init([], {}));
    RunSnoc(c, s0, [Init([], {})], Close);
  }

  lemma {:induction false} SaveLast(c: Limits, ds: seq<RawAddress>, n: nat, before: seq<Event>)
    requires c.Roomy() && AllDifferent(ds) && 0 < n <= |ds| && n <= c.pairedCap
    requires Run(c, Start(c, map[]), before) == Some(Filled(c, ds, n - 1, n))
    ensures Run(c, Start(c, map[]), before + [Save(ds[n - 1], true, true)]) == Some(Filled(c, ds, n, n))
  {
    SaveFills(c, ds, n);
    RunOn(c, Start(c, map[]), before, Save(ds[n - 1], true, true), Filled(c, ds, n - 1, n), Filled(c, ds, n, n), Done(true));
  }

  /** A run that then scans further devices, up to number m. */
  lemma {:induction false} ScanMany(c: Limits, ds: seq<RawAddress>, n: nat, m: nat) returns (events: seq<Event>)
    requires c.Roomy() && AllDifferent(ds) && n <= m <= |ds| && n <= c.pairedCap && m - n <= c.tempCap
    ensures Run(c, Start(c, map[]), events) == Some(Filled(c, ds, n, m))
    ensures forall e :: e in events ==> WellFormed(e)
  {
    if m == n {
      events := SaveMany(c, ds, n);
    } else {
      var before := ScanMany(c, ds, n, m - 1);
      events := before + [Allocate(ds[m - 1])];
      ScanOneMore(c, ds, n, m, before);
    }
  }

  lemma {:induction false} ScanOneMore(c: Limits, ds: seq<RawAddress>, n: nat, m: nat, before: seq<Event>)
    requires c.Roomy() && AllDifferent(ds) && n < m <= |ds| && n <= c.pairedCap && m - n <= c.tempCap
    requires Run(c, Start(c, map[]), before) == Some(Filled(c, ds, n, m - 1))
    ensures Run(c, Start(c, map[]), before + [Allocate(ds[m - 1])]) == Some(Filled(c, ds, n, m))
  {
    ScanFills(c, ds, n, m);
    RunOn(c, Start(c, map[]), before, Allocate(ds[m - 1]),
          Filled(c, ds, n, m - 1), Filled(c, ds, n, m), Id(c.minId + m - 1));
  }

  /** After Close the callbacks still work: a device is paired and stored although nothing is initialized. */
  lemma {:induction false} SaveAfterClose(a: RawAddress)
    ensures var s := Run(FLUORIDE, Start(FLUORIDE, map[]), REOPENED + [Allocate(a)] + [Save(a, true, true)]);
      s == Some(State([Entry(a, 1)], [], {1}, 2, false, true, map[a := 1]))
  {
    var c := FLUORIDE;
    assert Cached(c, [a], 0, 0) == [] && Stores(c, [a], 0) == map[] && FirstOf(c, 0) == {};
    Reopened(c);
    ScanOneMore(c, [a], 0, 1, REOPENED);
    SaveLast(c, [a], 1, REOPENED + [Allocate(a)]);
    assert Cached(c, [a], 0, 1) == [Entry(a, 1)] && Stores(c, [a], 1) == map[a := 1] && FirstOf(c, 1) == {1};
  }

  /** An Init that then brings the device under another id leaves the old one in use, and held by nobody. */
  lemma {:induction false} InitLosesAnId(a: RawAddress, id: int)
    requires FLUORIDE.InRange(id) && id != 1
    ensures var s := Run(FLUORIDE, Start(FLUORIDE, map[]),
                         REOPENED + [Allocate(a)] + [Save(a, true, true)] + [Init([Entry(a, id)], {})]);
      s.Some? && 1 in s.value.ids && forall b :: IdOf(s.value, b) != Some(1)
  {
    var c, order := FLUORIDE, [Entry(a, id)];
    var before := REOPENED + [Allocate(a)] + [Save(a, true, true)];
    var s := State([Entry(a, 1)], [], {1}, 2, false, true, map[a := 1]);
    SaveAfterClose(a);
    RunSnoc(c, Start(c, map[]), before, Init(order, {}));
    assert order[..0] == [] && Loaded(c, s, [], {}) == s.(next := 1);
    assert IndexOf(s.paired, a) == 0 && Without(s.paired, a) == [];
    assert [Entry(a, id)] + [] == order;
    assert Loaded(c, s, order, {}).paired == order;
  }

  // ---------- Losing enough ids ----------

  /** A map with the paired devices, that brings the ids not in use so far. */
  function Renaming(c: Limits, ds: seq<RawAddress>): (order: Devices)
    requires c.pairedCap <= |ds|
    ensures |order| == c.pairedCap
    ensures forall i :: 0 <= i < |order| ==>
              order[i] == Entry(ds[i], Min(c.maxId, c.minId + c.pairedCap + c.tempCap + i))
  {
    seq(c.pairedCap, i requires 0 <= i < c.pairedCap =>
      Entry(ds[i], Min(c.maxId, c.minId + c.pairedCap + c.tempCap + i)))
  }

  lemma {:induction false} RenamingHas(c: Limits, ds: seq<RawAddress>, i: nat)
    requires AllDifferent(ds) && c.pairedCap <= |ds| && i < |ds|
    ensures Distinct(Renaming(c, ds)) && (Has(Renaming(c, ds), ds[i]) <==> i < c.pairedCap)
  {
    var order := Renaming(c, ds);
    if i < c.pairedCap { HasIndex(order, i); }
  }

  lemma {:induction false} RenamingEvictsNone(c: Limits, ds: seq<RawAddress>)
    requires AllDifferent(ds) && |ds| == c.pairedCap + c.tempCap + 1 && Distinct(Cached(c, ds, 0, c.pairedCap))
    ensures Distinct(Renaming(c, ds)) && !Evicts(c.pairedCap, Cached(c, ds, 0, c.pairedCap), Renaming(c, ds))
  {
    var order, found := Renaming(c, ds), Cached(c, ds, 0, c.pairedCap);
    forall a | a in KeySet(order) ensures a in KeySet(found) {
      KeySetIsHas(found, a);
      var i :| 0 <= i < |order| && order[i].key == a;
      CachedHas(c, ds, 0, c.pairedCap, i);
    }
    assert KeySet(found) + KeySet(order) == KeySet(found);
    KeyCount(found);
    RenamingHas(c, ds, 0);
    InitEvictsIff(c.pairedCap, found, order);
  }

  lemma {:induction false} RenamingUsesUp(c: Limits, ds: seq<RawAddress>, n: nat, x: int)
    requires c.Roomy() && AllDifferent(ds) && n == c.pairedCap + c.tempCap == |ds| - 1 && n + c.pairedCap >= c.Size()
    requires c.InRange(x)
    ensures x in Loaded(c, Filled(c, ds, c.pairedCap, n), Renaming(c, ds), {}).ids
  {
    var order, s := Renaming(c, ds), Filled(c, ds, c.pairedCap, n);
    FilledIsSound(c, ds, c.pairedCap, n);
    RenamingEvictsNone(c, ds);
    LoadedIds(c, s, order, {}, x);
    if x < c.minId + n {
      assert x in s.ids && InUseFrom(c.pairedCap, s.paired, order, -1, x);
    } else {
      var j := x - c.minId - n;
      assert order[j].value == x && InUseFrom(c.pairedCap, s.paired, order, j, x);
    }
  }

  lemma {:induction false} NewToAll(c: Limits, s: State, order: Devices, a: RawAddress)
    requires Sound(c, s) && Distinct(order) && |order| <= c.pairedCap
    requires !Has(order, a) && !Has(s.paired, a) && !Has(s.temp, a)
    ensures IdOf(Loaded(c, s, order, {}), a) == None
  {
    LoadedIs(c, s, order, {});
    LoadedRest(c, s, order, {});
    LookupAppend(Reversed(order), Left(c.pairedCap, s.paired, order), a);
    ReversedLookup(order, a);
    LeftFacts(c.pairedCap, s.paired, order);
  }

  lemma {:induction false} HangsAfter(c: Limits, s: State, order: Devices, a: RawAddress)
    requires c.Roomy() && !s.initialized && |order| <= c.pairedCap && AllInRange(c, order)
    requires var t := Loaded(c, s, order, {}); AllUsed(c, t.ids) && IdOf(t, a) == None
    ensures var (s', reply) := Step(c, s, Init(order, {}));
      reply == Done(true) && Step(c, s', Allocate(a)).1 == Hang
  {
  }

  lemma {:induction false} AllAreUsed(c: Limits, ds: seq<RawAddress>, n: nat)
    requires c.Roomy() && AllDifferent(ds) && n == c.pairedCap + c.tempCap == |ds| - 1 && n + c.pairedCap >= c.Size()
    ensures AllUsed(c, Loaded(c, Filled(c, ds, c.pairedCap, n), Renaming(c, ds), {}).ids)
  {
    var ids := Loaded(c, Filled(c, ds, c.pairedCap, n), Renaming(c, ds), {}).ids;
    forall x | c.minId <= x <= c.maxId ensures x in ids { RenamingUsesUp(c, ds, n, x); }
  }

  lemma {:induction false} LastIsNew(c: Limits, ds: seq<RawAddress>, n: nat)
    requires c.Roomy() && AllDifferent(ds) && n == c.pairedCap + c.tempCap == |ds| - 1
    ensures IdOf(Loaded(c, Filled(c, ds, c.pairedCap, n), Renaming(c, ds), {}), ds[n]) == None
  {
    RenamingHas(c, ds, n);
    CachedHas(c, ds, 0, c.pairedCap, n);
    CachedHas(c, ds, c.pairedCap, n, n);
    FilledIsSound(c, ds, c.pairedCap, n);
    NewToAll(c, Filled(c, ds, c.pairedCap, n), Renaming(c, ds), ds[n]);
  }

  /** The Init, and the one device more. */
  lemma {:induction false} InitThenHang(c: Limits, ds: seq<RawAddress>, n: nat, before: seq<Event>)
    requires c.Roomy() && AllDifferent(ds) && n == c.pairedCap + c.tempCap == |ds| - 1 && n + c.pairedCap >= c.Size()
    requires Run(c, Start(c, map[]), before) == Some(Filled(c, ds, c.pairedCap, n))
    ensures var r := Run(c, Start(c, map[]), before + [Init(Renaming(c, ds), {})]);
      r.Some? && Step(c, r.value, Allocate(ds[n])).1 == Hang
  {
    AllAreUsed(c, ds, n);
    LastIsNew(c, ds, n);
    HangsAfter(c, Filled(c, ds, c.pairedCap, n), Renaming(c, ds), ds[n]);
    RunSnoc(c, Start(c, map[]), before, Init(Renaming(c, ds), {}));
  }

  /**
   * With fewer ids than that, some run hangs: pair and scan as many devices as there are places
   * after a Close, then Init with the paired ones under all the other ids, then scan one more.
   */
  lemma {:induction false} SomeRunHangs(c: Limits, ds: seq<RawAddress>) returns (events: seq<Event>, last: Event)
    requires c.Roomy() && 2 * c.pairedCap + c.tempCap >= c.Size()
    requires AllDifferent(ds) && |ds| == c.pairedCap + c.tempCap + 1
    ensures forall e :: e in events + [last] ==> WellFormed(e)
    ensures var r := Run(c, Start(c, map[]), events); r.Some? && Step(c, r.value, last).1 == Hang
  {
    var n := c.pairedCap + c.tempCap;
    var before := ScanMany(c, ds, c.pairedCap, n);
    InitThenHang(c, ds, n, before);
    RenamingHas(c, ds, 0);
    events, last := before + [Init(Renaming(c, ds), {})], Allocate(ds[n]);
  }
}
