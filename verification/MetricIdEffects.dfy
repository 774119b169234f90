/** What each call of the allocator does to every device, every id and every stored entry. */
module MetricIdEffects {
  import opened Common
  import opened RecencyList
  import opened Addresses
  import opened MetricIds
  import opened MetricIdInit
  import opened MetricIdClean
  import opened MetricIdRuns
  import opened MetricIdStore

  /** The device is cached as before, in the same cache, under the same id. */
  ghost predicate SameDevice(s: State, s': State, b: RawAddress) {
    Lookup(s'.paired, b) == Lookup(s.paired, b) && Lookup(s'.temp, b) == Lookup(s.temp, b)
  }

  /** Both flags are as before. */
  predicate SameFlags(s: State, s': State) {
    s'.initialized == s.initialized && s'.callbacks == s.callbacks
  }

  /** The device is known no more, and its id is free. */
  ghost predicate Dropped(s: State, s': State, b: RawAddress) {
    IdOf(s, b).Some? && IdOf(s', b) == None && IdOf(s, b).value !in s'.ids
  }

  /** All other ids are in use as before. */
  ghost predicate OtherIdsSame(s: State, s': State, but: set<int>) {
    forall x :: x !in but ==> (x in s'.ids <==> x in s.ids)
  }

  ghost predicate OtherEntriesSame(s: State, s': State, but: set<RawAddress>) {
    forall b :: b !in but ==> Stored(s'.store, b) == Stored(s.store, b)
  }

  // ---------- Forget ----------

  /**
   * A Forget drops exactly the device, from cache and store, and frees exactly its id; a device
   * that is not paired is left alone. The device is known no more exactly if it was not also in
   * the temporary cache, where only an unclean Init can have left it.
   */
  lemma {:induction false} ForgetForgets(c: Limits, s: State, a: RawAddress, forgetOk: bool)
    requires Sound(c, s)
    ensures var (s', reply) := ForgetStep(s, a, forgetOk);
      && reply == Void
      && (!Has(s.paired, a) ==> s' == s)
      && (Has(s.paired, a) ==>
            && Lookup(s'.paired, a) == None && s'.temp == s.temp && (Dropped(s, s', a) <==> !Has(s.temp, a))
            && Lookup(s.paired, a).value !in s'.ids && OtherIdsSame(s, s', {Lookup(s.paired, a).value})
            && (forall b :: b != a ==> SameDevice(s, s', b))
            && (forgetOk ==> a !in s'.store) && (!forgetOk ==> s'.store == s.store) && OtherEntriesSame(s, s', {a})
            && s'.next == s.next && SameFlags(s, s'))
      && (Exact(s) && Has(s.paired, a) ==> Dropped(s, s', a))
  {
    WithoutFacts(s.paired, a);
    if Has(s.paired, a) { assert Exact(s) ==> Lookup(s.paired, a) == None || Lookup(s.temp, a) == None; }
  }

  // ---------- Save ----------

  /** The device at the end of a full list; adding another loses it. */
  predicate Loses(l: Devices, capacity: nat, b: RawAddress) {
    |l| == capacity && l != [] && l[|l| - 1].key == b
  }

  /** Saving a device that is neither paired nor scanned fails; one that is paired changes no binding. */
  lemma {:induction false} SaveRefused(c: Limits, s: State, a: RawAddress, saveOk: bool, forgetOk: bool)
    requires Sound(c, s)
    ensures var (s', reply) := SaveStep(c, s, a, saveOk, forgetOk);
      && (reply == Done(false) <==>
            IdOf(s, a) == None || (!Has(s.paired, a) && Has(s.temp, a) && s.callbacks && !saveOk))
      && (IdOf(s, a) == None ==> s' == s)
      && (reply == Fatal <==> !Has(s.paired, a) && Has(s.temp, a) && !s.callbacks)
      && (Has(s.paired, a) ==>
            reply == Done(true) && (forall b :: SameDevice(s, s', b)) && s'.ids == s.ids && s'.store == s.store)
  {
    TouchFacts(s.paired, a);
  }

  /**
   * Saving a scanned device moves it, with its id, from the temporary to the paired cache, and
   * stores it if the callback works. A full paired cache loses its last device, with its id and,
   * if the callback works, its stored entry. No other device, id or entry changes.
   */
  lemma {:induction false} SavePairs(c: Limits, s: State, a: RawAddress, saveOk: bool, forgetOk: bool)
    requires Sound(c, s) && Exact(s) && !Has(s.paired, a) && Has(s.temp, a) && s.callbacks
    ensures var (s', reply) := SaveStep(c, s, a, saveOk, forgetOk);
      && reply == Done(saveOk)
      && Lookup(s'.paired, a) == Lookup(s.temp, a) && Lookup(s'.temp, a) == None
      && (saveOk ==> Stored(s'.store, a) == Lookup(s.temp, a))
      && (forall b :: b != a && !Loses(s.paired, c.pairedCap, b) ==> SameDevice(s, s', b))
      && (forall b :: Loses(s.paired, c.pairedCap, b) ==> b != a && Dropped(s, s', b) && (forgetOk ==> b !in s'.store))
      && s'.next == s.next && SameFlags(s, s')
  {
    var id := Lookup(s.temp, a).value;
    WithoutFacts(s.temp, a);
    PutFacts(s.paired, c.pairedCap, a, id);
    assert IdOf(s, a) == Some(id);
    forall b | Loses(s.paired, c.pairedCap, b) ensures IdOf(s, b) == Lookup(s.paired, b) && Lookup(s.paired, b).Some? {
      HasIndex(s.paired, |s.paired| - 1);
    }
    forall b ensures Lookup(s.paired, b) == None || Lookup(s.temp, b) == None { }
  }

  /** What a Save leaves alone among ids and entries. */
  lemma {:induction false} SaveKeeps(c: Limits, s: State, a: RawAddress, saveOk: bool, forgetOk: bool, b: RawAddress)
    requires Sound(c, s) && !Has(s.paired, a) && Has(s.temp, a) && s.callbacks
    requires b != a && !Loses(s.paired, c.pairedCap, b)
    ensures var s' := SaveStep(c, s, a, saveOk, forgetOk).0;
      && Stored(s'.store, b) == Stored(s.store, b)
      && (forall x :: x in s'.ids ==> x in s.ids)
      && (|s.paired| < c.pairedCap ==> s'.ids == s.ids)
      && (forall x :: x in s.ids && x !in s'.ids ==> s.paired != [] && x == s.paired[|s.paired| - 1].value)
  {
  }

  // ---------- Allocate ----------

  /**
   * Scanning a device makes it known and forgets no other, but for the last of a full temporary
   * cache, whose id is freed; the store does not change.
   */
  lemma {:induction false} AllocateKnows(c: Limits, s: State, a: RawAddress)
    requires Sound(c, s) && Exact(s)
    ensures var (s', reply) := AllocateStep(c, s, a);
      && reply.Id? && IdOf(s', a) == Some(reply.id) && reply.id in s'.ids
      && (IdOf(s, a).Some? ==> (forall b :: SameDevice(s, s', b)) && s'.ids == s.ids)
      && (IdOf(s, a) == None ==>
            && Lookup(s'.temp, a) == Some(reply.id) && reply.id !in s.ids
            && (forall b :: b != a && !Loses(s.temp, c.tempCap, b) ==> SameDevice(s, s', b))
            && (forall b :: Loses(s.temp, c.tempCap, b) ==> b != a && Dropped(s, s', b)))
      && s'.store == s.store && SameFlags(s, s')
  {
    AllocateExact(c, s, a);
    AllocatesInCyclicOrder(c, s, a);
    TouchFacts(s.paired, a);
    TouchFacts(s.temp, a);
    if IdOf(s, a) == None { AssignKnows(c, s, a, NextFree(c, s.ids, s.next, 0)); }
  }

  lemma {:induction false} AssignKnows(c: Limits, s: State, a: RawAddress, id: int)
    requires Sound(c, s) && Exact(s) && IdOf(s, a) == None && id !in s.ids
    ensures var s' := Assigned(c, s, a, id);
      && Lookup(s'.temp, a) == Some(id) && id in s'.ids
      && (forall b :: b != a && !Loses(s.temp, c.tempCap, b) ==> SameDevice(s, s', b))
      && (forall b :: Loses(s.temp, c.tempCap, b) ==> b != a && Dropped(s, s', b))
  {
    PutFacts(s.temp, c.tempCap, a, id);
    forall b | Loses(s.temp, c.tempCap, b)
      ensures b != a && IdOf(s, b) == Lookup(s.temp, b) == Some(s.temp[|s.temp| - 1].value)
    {
      HasIndex(s.temp, |s.temp| - 1);
      assert Lookup(s.paired, b) == None || Lookup(s.temp, b) == None;
    }
    if |s.temp| == c.tempCap { assert Loses(s.temp, c.tempCap, s.temp[|s.temp| - 1].key); }
  }

  // ---------- Close and Init ----------

  /** A Close forgets every device and frees every id, and touches neither the store nor the callbacks. */
  lemma {:induction false} CloseForgets(s: State)
    ensures var (s', reply) := CloseStep(s);
      && reply == Done(s.initialized)
      && (!s.initialized ==> s' == s)
      && (s.initialized ==> !s'.initialized && s'.ids == {} && forall a :: IdOf(s', a) == None)
      && s'.store == s.store && s'.callbacks == s.callbacks
  {
  }

  /** The forget callback for device `a` is called while loading, and works. */
  ghost predicate Forgets(capacity: nat, found: Devices, l: Devices, refused: set<RawAddress>, a: RawAddress) {
    a !in refused && exists t :: 0 <= t < |l| && EvictsAt(capacity, found, l, t, a)
  }

  ghost predicate EvictsAt(capacity: nat, found: Devices, l: Devices, t: int, a: RawAddress) {
    0 <= t < |l| && EvictedAt(capacity, found, l, t).Some? && EvictedAt(capacity, found, l, t).value.key == a
  }

  lemma {:induction false} ForgetsSnoc(capacity: nat, found: Devices, l: Devices, refused: set<RawAddress>, a: RawAddress)
    requires l != []
    ensures var n := |l| - 1;
      Forgets(capacity, found, l, refused, a)
      <==> Forgets(capacity, found, l[..n], refused, a) || (a !in refused && EvictsAt(capacity, found, l, n, a))
  {
    var n := |l| - 1;
    forall t | 0 <= t < n ensures EvictsAt(capacity, found, l[..n], t, a) <==> EvictsAt(capacity, found, l, t, a) {
      EvictedAtPrefix(capacity, found, l, n, t);
    }
  }

  /** Init takes from the store exactly the devices it evicts, where the callback works. */
  lemma {:induction false} InitStores(c: Limits, s: State, l: Devices, refused: set<RawAddress>, a: RawAddress)
    requires Sound(c, s) && Distinct(l) && |l| <= c.pairedCap
    ensures Stored(Loaded(c, s, l, refused).store, a)
            == if Forgets(c.pairedCap, s.paired, l, refused, a) then None else Stored(s.store, a)
  {
    if l != [] {
      var n := |l| - 1;
      DistinctPrefix(l, n);
      InitStores(c, s, l[..n], refused, a);
      ForgetsSnoc(c.pairedCap, s.paired, l, refused, a);
      LoadedIs(c, s, l[..n], refused);
      LoadOneIs(c, s, l, refused);
    }
  }
}
