/** Which device a full cache of the allocator loses: over every run, the one touched least recently. */
module MetricIdRecency {
  import opened Common
  import opened RecencyList
  import opened Addresses
  import opened MetricIds
  import opened MetricIdInit
  import opened MetricIdClean
  import opened MetricIdRuns
  import opened MetricIdEffects
  import R = RecencyRuns

  // ---------- When a device is touched ----------

  /** A device is touched in the paired cache when it is loaded, saved, or found there. */
  function PairedTouches(c: Limits, s: State, e: Event): seq<RawAddress>
    requires c.Roomy()
  {
    match e
    case Init(order, _) => if Step(c, s, e).1 == Done(true) then R.Keys(order) else []
    case Allocate(a) => if Has(s.paired, a) then [a] else []
    case Save(a, _, _) => if Has(s.paired, a) || (Has(s.temp, a) && s.callbacks) then [a] else []
    case _ => []
  }

  /** And in the temporary cache when it is scanned and not paired. */
  function TempTouches(c: Limits, s: State, e: Event): seq<RawAddress>
    requires c.Roomy()
  {
    if e.Allocate? && !Has(s.paired, e.address) && Step(c, s, e).1 != Hang then [e.address] else []
  }

  /** All touches of a run, oldest first, in the paired and in the temporary cache. */
  function Touches(c: Limits, s: State, events: seq<Event>): (seq<RawAddress>, seq<RawAddress>)
    requires c.Roomy()
  {
    if events == [] then ([], [])
    else
      var before, e := events[..|events| - 1], events[|events| - 1];
      var (paired, temp) := Touches(c, s, before);
      var r := Run(c, s, before);
      if r == None then (paired, temp)
      else (paired + PairedTouches(c, r.value, e), temp + TempTouches(c, r.value, e))
  }

  // ---------- The lists are in the order of their last touches ----------

  ghost predicate InOrder(l: Devices, t: seq<RawAddress>) {
    Distinct(l) && R.NewestFirst(R.Keys(l), t)
  }

  /** A touch, by a lookup or a Put, keeps the order. */
  lemma {:induction false} ApplyInOrder(l: Devices, t: seq<RawAddress>, capacity: nat, op: R.Op<RawAddress, int>)
    requires capacity > 0 && |l| <= capacity && InOrder(l, t) && (op.PutOp? || Has(l, op.key))
    ensures InOrder(R.Apply(l, capacity, op), t + [op.key])
  {
    var at := R.TouchedAt(l, capacity, op.key);
    R.PutOrTouchDistinct(l, capacity, op);
    R.KeysOfApply(l, capacity, op);
    R.NewestFirstDropAt(R.Keys(l), t, at);
    R.HasIsKey(l, op.key);
    NotDropped(l, op.key, at);
    R.NewestFirstTouch(R.DropAt(R.Keys(l), at), t, op.key);
  }

  lemma {:induction false} NotDropped(l: Devices, a: RawAddress, at: nat)
    requires Distinct(l) && (Has(l, a) ==> at == IndexOf(l, a))
    ensures a !in R.DropAt(R.Keys(l), at)
  {
    R.HasIsKey(l, a);
    var ks := R.Keys(l);
    var r := R.DropAt(ks, at);
    forall j | 0 <= j < |r| ensures r[j] != a {
      assert r[j] == ks[if j < at then j else j + 1];
    }
  }

  lemma {:induction false} TouchInOrder(l: Devices, t: seq<RawAddress>, a: RawAddress)
    requires InOrder(l, t) && Has(l, a)
    ensures InOrder(Touch(l, a), t + [a])
  {
    ApplyInOrder(l, t, |l|, R.GetOp(a));
  }

  lemma {:induction false} WithoutInOrder(l: Devices, t: seq<RawAddress>, a: RawAddress)
    requires InOrder(l, t)
    ensures InOrder(Without(l, a), t)
  {
    WithoutFacts(l, a);
    if Has(l, a) {
      R.KeysDropAt(l, IndexOf(l, a));
      R.NewestFirstDropAt(R.Keys(l), t, IndexOf(l, a));
    }
  }

  /** Init touches the devices of the map, one after the other. */
  lemma {:induction false} LoadedInOrder(c: Limits, s: State, l: Devices, refused: set<RawAddress>, t: seq<RawAddress>)
    requires Sound(c, s) && InOrder(s.paired, t)
    ensures InOrder(Loaded(c, s, l, refused).paired, t + R.Keys(l)) && |Loaded(c, s, l, refused).paired| <= c.pairedCap
  {
    if l == [] {
      assert t + R.Keys(l) == t;
    } else {
      var n := |l| - 1;
      var p := Loaded(c, s, l[..n], refused).paired;
      LoadedInOrder(c, s, l[..n], refused, t);
      PutInOrder(p, t + R.Keys(l[..n]), c.pairedCap, l[n]);
      KeysSnoc(t, l);
    }
  }

  lemma {:induction false} PutInOrder(p: Devices, t: seq<RawAddress>, capacity: nat, e: Entry<RawAddress, int>)
    requires capacity > 0 && |p| <= capacity && InOrder(p, t)
    ensures InOrder(Put(p, capacity, e.key, e.value), t + [e.key]) && |Put(p, capacity, e.key, e.value)| <= capacity
  {
    ApplyInOrder(p, t, capacity, R.PutOp(e.key, e.value));
    PutFacts(p, capacity, e.key, e.value);
  }

  lemma {:induction false} KeysSnoc(t: seq<RawAddress>, l: Devices)
    requires l != []
    ensures t + R.Keys(l) == t + R.Keys(l[..|l| - 1]) + [l[|l| - 1].key]
  {
  }

  ghost predicate BothInOrder(s: State, paired: seq<RawAddress>, temp: seq<RawAddress>) {
    InOrder(s.paired, paired) && InOrder(s.temp, temp)
  }

  lemma {:induction false} AssignInOrder(c: Limits, s: State, a: RawAddress, id: int, temp: seq<RawAddress>)
    requires c.Roomy() && |s.temp| <= c.tempCap && InOrder(s.temp, temp)
    ensures InOrder(Assigned(c, s, a, id).temp, temp + [a])
    ensures Assigned(c, s, a, id).paired == s.paired
  {
    ApplyInOrder(s.temp, temp, c.tempCap, R.PutOp(a, id));
  }

  lemma {:induction false} AllocateInOrder(c: Limits, s: State, a: RawAddress, paired: seq<RawAddress>, temp: seq<RawAddress>)
    requires Sound(c, s) && BothInOrder(s, paired, temp)
    ensures BothInOrder(AllocateStep(c, s, a).0, paired + PairedTouches(c, s, Allocate(a)), temp + TempTouches(c, s, Allocate(a)))
  {
    assert paired + [] == paired && temp + [] == temp;
    if Has(s.paired, a) {
      TouchInOrder(s.paired, paired, a);
    } else if Has(s.temp, a) {
      TouchInOrder(s.temp, temp, a);
    } else if !AllUsed(c, s.ids) {
      AssignInOrder(c, s, a, NextFree(c, s.ids, s.next, 0), temp);
    }
  }

  lemma {:induction false} SaveInOrder(c: Limits, s: State, e: Event, paired: seq<RawAddress>, temp: seq<RawAddress>)
    requires Sound(c, s) && BothInOrder(s, paired, temp) && e.Save?
    ensures BothInOrder(Step(c, s, e).0, paired + PairedTouches(c, s, e), temp + TempTouches(c, s, e))
  {
    var a := e.address;
    assert paired + [] == paired && temp + [] == temp;
    if Has(s.paired, a) {
      TouchInOrder(s.paired, paired, a);
    } else if Has(s.temp, a) && s.callbacks {
      WithoutInOrder(s.temp, temp, a);
      ApplyInOrder(s.paired, paired, c.pairedCap, R.PutOp(a, Lookup(s.temp, a).value));
    }
  }

  lemma {:induction false} StepInOrder(c: Limits, s: State, e: Event, paired: seq<RawAddress>, temp: seq<RawAddress>)
    requires Sound(c, s) && WellFormed(e) && BothInOrder(s, paired, temp)
    ensures BothInOrder(Step(c, s, e).0, paired + PairedTouches(c, s, e), temp + TempTouches(c, s, e))
  {
    assert paired + [] == paired && temp + [] == temp;
    match e
    case Init(order, refused) =>
      LoadedInOrder(c, s, order, refused, paired);
      LoadedRest(c, s, order, refused);
    case Close =>
    case Allocate(a) => AllocateInOrder(c, s, a, paired, temp);
    case Save(a, saveOk, forgetOk) => SaveInOrder(c, s, e, paired, temp);
    case Forget(a, forgetOk) => WithoutInOrder(s.paired, paired, a);
  }

  lemma {:induction false} EveryRunInOrder(c: Limits, store: map<RawAddress, int>, events: seq<Event>)
    requires c.Roomy() && Run(c, Start(c, store), events).Some?
    requires forall e :: e in events ==> WellFormed(e)
    ensures var (paired, temp) := Touches(c, Start(c, store), events);
      BothInOrder(Run(c, Start(c, store), events).value, paired, temp)
  {
    if events != [] {
      var before := events[..|events| - 1];
      EveryRunInOrder(c, store, before);
      RunSound(c, Start(c, store), before);
      var (paired, temp) := Touches(c, Start(c, store), before);
      StepInOrder(c, Run(c, Start(c, store), before).value, events[|events| - 1], paired, temp);
    }
  }

  /** What a full list loses was touched before all the rest of it. */
  lemma {:induction false} LosesOldest(l: Devices, t: seq<RawAddress>, capacity: nat, lost: RawAddress, b: RawAddress)
    requires InOrder(l, t) && Loses(l, capacity, lost) && Has(l, b) && b != lost
    ensures R.LastTouch(t, lost) < R.LastTouch(t, b)
  {
    var ks := R.Keys(l);
    assert ks[|l| - 1] == lost && ks[IndexOf(l, b)] == b;
  }

  /**
   * In every run: the device that a Save loses from a full paired cache is the one loaded, saved or
   * found there least recently, and the one that a scan loses from a full temporary cache is the
   * one scanned least recently.
   */
  lemma {:induction false} EveryRunLosesOldest(c: Limits, store: map<RawAddress, int>, events: seq<Event>,
                                               lost: RawAddress, b: RawAddress)
    requires c.Roomy() && Run(c, Start(c, store), events).Some? && b != lost
    requires forall e :: e in events ==> WellFormed(e)
    ensures var s, (paired, temp) := Run(c, Start(c, store), events).value, Touches(c, Start(c, store), events);
      && (Loses(s.paired, c.pairedCap, lost) && Has(s.paired, b) ==> R.LastTouch(paired, lost) < R.LastTouch(paired, b))
      && (Loses(s.temp, c.tempCap, lost) && Has(s.temp, b) ==> R.LastTouch(temp, lost) < R.LastTouch(temp, b))
  {
    EveryRunInOrder(c, store, events);
    var s := Run(c, Start(c, store), events).value;
    var (paired, temp) := Touches(c, Start(c, store), events);
    if Loses(s.paired, c.pairedCap, lost) && Has(s.paired, b) { LosesOldest(s.paired, paired, c.pairedCap, lost, b); }
    if Loses(s.temp, c.tempCap, lost) && Has(s.temp, b) { LosesOldest(s.temp, temp, c.tempCap, lost, b); }
  }
}
