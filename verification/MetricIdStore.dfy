/** The persistent store behind the callbacks, and starting again from it. */
module MetricIdStore {
  import opened Common
  import opened RecencyList
  import opened Addresses
  import opened MetricIds
  import opened MetricIdInit
  import opened MetricIdClean
  import opened MetricIdRuns

  function Stored(store: map<RawAddress, int>, a: RawAddress): Option<int> {
    if a in store then Some(store[a]) else None
  }

  /** The store and the paired cache are the same. */
  ghost predicate Synced(s: State) {
    forall a :: Lookup(s.paired, a) == Stored(s.store, a)
  }

  /** Every paired device is stored with its id; between Close and Init the store may hold more. */
  ghost predicate Backed(s: State) {
    forall a :: Has(s.paired, a) ==> Lookup(s.paired, a) == Stored(s.store, a)
  }

  /** The callbacks that a Save makes, on this state, all succeed. */
  predicate SaveCallbacksOk(c: Limits, s: State, a: RawAddress, saveOk: bool, forgetOk: bool)
    requires c.Roomy()
  {
    Has(s.paired, a) || !Has(s.temp, a) || !s.callbacks
    || (saveOk && (forgetOk || Evicted(s.paired, c.pairedCap, a) == None))
  }

  lemma {:induction false} SaveSyncIff(c: Limits, s: State, a: RawAddress, saveOk: bool, forgetOk: bool)
    requires Sound(c, s) && Synced(s)
    ensures Synced(SaveStep(c, s, a, saveOk, forgetOk).0) <==> SaveCallbacksOk(c, s, a, saveOk, forgetOk)
  {
    var s' := SaveStep(c, s, a, saveOk, forgetOk).0;
    TouchFacts(s.paired, a);
    if !Has(s.paired, a) && Has(s.temp, a) && s.callbacks {
      PutFacts(s.paired, c.pairedCap, a, Lookup(s.temp, a).value);
      var evicted := Evicted(s.paired, c.pairedCap, a);
      assert Stored(s.store, a) == None;
      if !saveOk {
        assert Lookup(s'.paired, a) != Stored(s'.store, a);
      } else if evicted.Some? && !forgetOk {
        assert Lookup(s'.paired, evicted.value.key) != Stored(s'.store, evicted.value.key);
      }
    }
  }

  /** Between Close and Init a Save still reaches the store. */
  lemma {:induction false} SaveBacked(c: Limits, s: State, a: RawAddress, saveOk: bool, forgetOk: bool)
    requires Sound(c, s) && Backed(s) && SaveCallbacksOk(c, s, a, saveOk, forgetOk)
    ensures Backed(SaveStep(c, s, a, saveOk, forgetOk).0)
  {
    var s' := SaveStep(c, s, a, saveOk, forgetOk).0;
    TouchFacts(s.paired, a);
    if !Has(s.paired, a) && Has(s.temp, a) && s.callbacks {
      PutFacts(s.paired, c.pairedCap, a, Lookup(s.temp, a).value);
      var evicted := Evicted(s.paired, c.pairedCap, a);
      forall b | Has(s'.paired, b) ensures Lookup(s'.paired, b) == Stored(s'.store, b) {
        if b != a { assert Has(s.paired, b) && Stored(s'.store, b) == Stored(s.store, b); }
      }
    }
  }

  lemma {:induction false} ForgetSyncIff(c: Limits, s: State, a: RawAddress, forgetOk: bool)
    requires Sound(c, s) && Synced(s)
    ensures Synced(ForgetStep(s, a, forgetOk).0) <==> !Has(s.paired, a) || forgetOk
  {
    WithoutFacts(s.paired, a);
    if Has(s.paired, a) && !forgetOk {
      var s' := ForgetStep(s, a, forgetOk).0;
      assert Lookup(s'.paired, a) != Stored(s'.store, a);
    }
  }

  // ---------- Init from the store ----------

  lemma {:induction false} LoadedStore(c: Limits, s: State, l: Devices, refused: set<RawAddress>)
    requires c.Roomy() && Distinct(s.paired) && |s.paired| <= c.pairedCap && Distinct(l) && |l| <= c.pairedCap
    requires !Evicts(c.pairedCap, s.paired, l)
    ensures Loaded(c, s, l, refused).store == s.store
  {
    if l != [] {
      var n := |l| - 1;
      DistinctPrefix(l, n);
      NoneBefore(c.pairedCap, s.paired, l);
      LoadedStore(c, s, l[..n], refused);
      LoadedIs(c, s, l[..n], refused);
      LoadOneIs(c, s, l, refused);
    }
  }

  /** A map that has every device found evicts none, and leaves none as it was. */
  lemma {:induction false} CoveredLeavesNone(capacity: nat, found: Devices, order: Devices)
    requires Distinct(found) && |found| <= capacity && Distinct(order) && |order| <= capacity
    requires forall a :: Has(found, a) ==> Has(order, a)
    ensures !Evicts(capacity, found, order) && Left(capacity, found, order) == []
  {
    forall a | a in KeySet(found) ensures a in KeySet(order) { KeySetIsHas(found, a); KeySetIsHas(order, a); }
    assert KeySet(found) + KeySet(order) == KeySet(order);
    KeyCount(order);
    InitEvictsIff(capacity, found, order);
    var left := Left(capacity, found, order);
    LeftFacts(capacity, found, order);
    if left != [] { HasIndex(left, 0); }
  }

  lemma {:induction false} InitSynced(c: Limits, s: State, order: Devices, refused: set<RawAddress>)
    requires Sound(c, s) && Backed(s) && Distinct(order) && InitStep(c, s, order, refused).1 == Done(true)
    requires forall a :: Lookup(order, a) == Stored(s.store, a)
    ensures Synced(InitStep(c, s, order, refused).0)
  {
    CoveredLeavesNone(c.pairedCap, s.paired, order);
    LoadedStore(c, s, order, refused);
    LoadedIs(c, s, order, refused);
    assert Reversed(order) + [] == Reversed(order);
    forall a ensures Lookup(Reversed(order), a) == Lookup(order, a) { ReversedLookup(order, a); }
  }

  // ---------- Whole runs ----------

  /** The callbacks succeed, and an Init is given what the store holds. */
  ghost predicate Faithful(c: Limits, s: State, e: Event)
    requires c.Roomy()
  {
    match e
    case Init(order, refused) => forall a :: Lookup(order, a) == Stored(s.store, a)
    case Save(a, saveOk, forgetOk) => SaveCallbacksOk(c, s, a, saveOk, forgetOk)
    case Forget(a, forgetOk) => forgetOk || !Has(s.paired, a)
    case _ => true
  }

  ghost predicate InStep(s: State) {
    Backed(s) && (s.initialized ==> Synced(s))
  }

  lemma {:induction false} StepSynced(c: Limits, s: State, e: Event)
    requires Sound(c, s) && InStep(s) && WellFormed(e) && Faithful(c, s, e)
    ensures InStep(Step(c, s, e).0)
  {
    match e
    case Init(order, refused) => if Step(c, s, e).1 == Done(true) { InitSynced(c, s, order, refused); }
    case Close =>
    case Allocate(a) => AllocateInStep(c, s, a);
    case Save(a, saveOk, forgetOk) =>
      SaveBacked(c, s, a, saveOk, forgetOk);
      if s.initialized { SaveSyncIff(c, s, a, saveOk, forgetOk); }
    case Forget(a, forgetOk) =>
      ForgetBacked(c, s, a, forgetOk);
      if s.initialized { ForgetSyncIff(c, s, a, forgetOk); }
  }

  lemma {:induction false} AllocateInStep(c: Limits, s: State, a: RawAddress)
    requires Sound(c, s) && InStep(s)
    ensures InStep(AllocateStep(c, s, a).0)
  {
    TouchFacts(s.paired, a);
  }

  lemma {:induction false} ForgetBacked(c: Limits, s: State, a: RawAddress, forgetOk: bool)
    requires Sound(c, s) && Backed(s)
    ensures Backed(ForgetStep(s, a, forgetOk).0)
  {
    WithoutFacts(s.paired, a);
  }

  ghost predicate FaithfulRun(c: Limits, s: State, events: seq<Event>)
    requires c.Roomy()
  {
    events != [] ==>
      && FaithfulRun(c, s, events[..|events| - 1])
      && var before := Run(c, s, events[..|events| - 1]);
         before.Some? ==> Faithful(c, before.value, events[|events| - 1])
  }

  /**
   * In every run with working callbacks every paired device is stored with its id, also those
   * saved between a Close and the next Init; and while initialized the store holds nothing else.
   */
  lemma {:induction false} EveryRunSynced(c: Limits, store: map<RawAddress, int>, events: seq<Event>)
    requires c.Roomy()
    requires forall e :: e in events ==> WellFormed(e)
    requires FaithfulRun(c, Start(c, store), events)
    ensures var r := Run(c, Start(c, store), events);
      r.Some? ==> Backed(r.value) && (r.value.initialized ==> Synced(r.value))
  {
    if events != [] {
      var before := events[..|events| - 1];
      EveryRunSynced(c, store, before);
      RunSound(c, Start(c, store), before);
      var r := Run(c, Start(c, store), before);
      if r.Some? { StepSynced(c, r.value, events[|events| - 1]); }
    }
  }

  // ---------- Closing and starting again from the store ----------

  /** Two lists with the same bindings are equally long. */
  lemma {:induction false} SameBindingsSameLength(l: Devices, m: Devices)
    requires Distinct(l) && Distinct(m)
    requires forall a :: Lookup(l, a) == Lookup(m, a)
    ensures |l| == |m|
  {
    forall a ensures a in KeySet(l) <==> a in KeySet(m) { KeySetIsHas(l, a); KeySetIsHas(m, a); }
    assert KeySet(l) == KeySet(m);
    KeyCount(l);
    KeyCount(m);
  }

  /** A listing of the paired devices, in any order, fits the cache and brings distinct ids in range. */
  lemma {:induction false} ListingFits(c: Limits, s: State, order: Devices)
    requires Sound(c, s) && Exact(s)
    requires Distinct(order) && forall b :: Lookup(order, b) == Lookup(s.paired, b)
    ensures |order| <= c.pairedCap && AllInRange(c, order)
    ensures forall i, j :: 0 <= i < j < |order| ==> order[i].value != order[j].value
  {
    SameBindingsSameLength(order, s.paired);
    forall i | 0 <= i < |order| ensures c.InRange(order[i].value) && IdOf(s, order[i].key) == Some(order[i].value) {
      HasIndex(order, i);
      assert s.paired[IndexOf(s.paired, order[i].key)].value == order[i].value;
    }
  }

  /** With nothing cached a map is clean if it brings no id twice. */
  lemma {:induction false} CleanForNothing(c: Limits, s: State, order: Devices)
    requires c.Roomy() && s.paired == [] && s.temp == [] && Distinct(order) && |order| <= c.pairedCap
    requires forall i, j :: 0 <= i < j < |order| ==> order[i].value != order[j].value
    ensures CleanFor(c, s, order)
  {
    CoveredLeavesNone(c.pairedCap, [], order);
    forall t | 0 <= t < |order| ensures Left(c.pairedCap, [], order[..t]) == [] {
      DistinctPrefix(order, t);
      CoveredLeavesNone(c.pairedCap, [], order[..t]);
    }
    assert IdsIn([]) == {};
  }

  /**
   * Close, then Init from the store, in whatever order it lists its entries: both
   * succeed, and every paired device is answered with the id it had before.
   */
  lemma {:induction false} RestartKeepsPairedIds(c: Limits, s: State, order: Devices, refused: set<RawAddress>,
                                                 a: RawAddress)
    requires Sound(c, s) && Exact(s) && s.initialized && Synced(s)
    requires Distinct(order) && forall b :: Lookup(order, b) == Stored(s.store, b)
    ensures var closed := CloseStep(s);
      var reopened := InitStep(c, closed.0, order, refused);
      && closed.1 == Done(true) && reopened.1 == Done(true)
      && Sound(c, reopened.0) && Exact(reopened.0) && Synced(reopened.0)
      && (Has(s.paired, a) ==> AllocateStep(c, reopened.0, a).1 == AllocateStep(c, s, a).1)
  {
    var closed := CloseStep(s).0;
    ListingFits(c, s, order);
    Reopens(c, closed, order, refused);
    assert Lookup(InitStep(c, closed, order, refused).0.paired, a) == Stored(closed.store, a);
  }

  lemma {:induction false} Reopens(c: Limits, s: State, order: Devices, refused: set<RawAddress>)
    requires Sound(c, s) && Exact(s) && !s.initialized && s.paired == [] && s.temp == []
    requires Distinct(order) && |order| <= c.pairedCap && AllInRange(c, order)
    requires forall i, j :: 0 <= i < j < |order| ==> order[i].value != order[j].value
    requires forall b :: Lookup(order, b) == Stored(s.store, b)
    ensures var (s', reply) := InitStep(c, s, order, refused);
      reply == Done(true) && Sound(c, s') && Exact(s') && Synced(s') && s'.store == s.store
  {
    CleanForNothing(c, s, order);
    InitSound(c, s, order, refused);
    InitSynced(c, s, order, refused);
    InitExactIff(c, s, order, refused);
    CoveredLeavesNone(c.pairedCap, s.paired, order);
    LoadedStore(c, s, order, refused);
  }
}
