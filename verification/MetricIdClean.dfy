/** Exactly when Init leaves the used ids those of the cached devices, each held once. */
module MetricIdClean {
  import opened Common
  import opened RecencyList
  import opened Addresses
  import opened MetricIds
  import opened MetricIdInit

  /** Loading number `t` of the list finds its device paired already, and overwrites its id. */
  ghost predicate Overwrites(capacity: nat, found: Devices, l: Devices, t: int) {
    0 <= t < |l| && Has(Left(capacity, found, l[..t]), l[t].key)
  }

  ghost predicate NewIds(order: Devices, temp: Devices, left: Devices) {
    && (forall i, j :: 0 <= i < j < |order| ==> order[i].value != order[j].value)
    && (forall i :: 0 <= i < |order| ==> !Has(temp, order[i].key) && order[i].value !in IdsIn(temp) + IdsIn(left))
  }

  /**
   * The map brings no id twice, and no device or id of the temporary cache; no id of a paired
   * device that stays, and none that a later eviction frees; and where it overwrites the id of a
   * device it brings that id again.
   */
  ghost predicate CleanFor(c: Limits, s: State, order: Devices) {
    && NewIds(order, s.temp, Left(c.pairedCap, s.paired, order))
    && (forall j, t :: 0 <= j < t < |order| ==> !Frees(c.pairedCap, s.paired, order, t, order[j].value))
    && (forall t :: Overwrites(c.pairedCap, s.paired, order, t) ==>
          Has(s.paired, order[t].key) && Lookup(s.paired, order[t].key).value in IdsIn(order))
  }

  // ---------- What becomes of a device found ----------

  /** A device evicted was found as it is, and is gone from then on. */
  lemma {:induction false} EvictedWasFound(capacity: nat, found: Devices, l: Devices, t: nat)
    requires Distinct(found) && |found| <= capacity && Distinct(l) && |l| <= capacity
    requires t < |l| && EvictedAt(capacity, found, l, t).Some?
    ensures var p := EvictedAt(capacity, found, l, t).value;
      Lookup(found, p.key) == Some(p.value) && !Has(l[..t], p.key) && p.key != l[t].key
      && !Has(Left(capacity, found, l[..t + 1]), p.key)
  {
    var r := Left(capacity, found, l[..t]);
    DistinctPrefix(l, t);
    LeftFacts(capacity, found, l[..t]);
    IndexOfUnique(r, r[|r| - 1].key, |r| - 1);
    DropLastFacts(r);
    LeftUpTo(capacity, found, l, t);
  }

  lemma {:induction false} LeftUpTo(capacity: nat, found: Devices, l: Devices, t: nat)
    requires t < |l|
    ensures Left(capacity, found, l[..t + 1]) == LeftStep(capacity, Left(capacity, found, l[..t]), t, l[t].key)
  {
    assert l[..t + 1][..t] == l[..t];
  }

  lemma {:induction false} GoneStaysGone(capacity: nat, found: Devices, l: Devices, t: nat, u: nat, a: RawAddress)
    requires Distinct(found) && |found| <= capacity && Distinct(l) && |l| <= capacity
    requires t <= u <= |l| && !Has(Left(capacity, found, l[..t]), a)
    ensures !Has(Left(capacity, found, l[..u]), a)
  {
    if t < u {
      GoneStaysGone(capacity, found, l, t, u - 1, a);
      GoneNext(capacity, found, l, u - 1, u, a);
    }
  }

  lemma {:induction false} GoneNext(capacity: nat, found: Devices, l: Devices, t: nat, u: nat, a: RawAddress)
    requires Distinct(found) && |found| <= capacity && Distinct(l) && |l| <= capacity
    requires u == t + 1 <= |l| && !Has(Left(capacity, found, l[..t]), a)
    ensures !Has(Left(capacity, found, l[..u]), a)
  {
    LeftUpTo(capacity, found, l, t);
    DistinctPrefix(l, t);
    LeftFacts(capacity, found, l[..t]);
    NoneAdded(capacity, Left(capacity, found, l[..t]), t, l[t].key, a);
  }

  lemma {:induction false} NoneAdded(capacity: nat, r: Devices, n: nat, a: RawAddress, b: RawAddress)
    requires Distinct(r) && !Has(r, b)
    ensures !Has(LeftStep(capacity, r, n, a), b)
  {
    WithoutFacts(r, a);
    if r != [] { DropLastFacts(r); }
  }

  /** A device that was found stays, or is overwritten, or is evicted. */
  lemma {:induction false} Fate(capacity: nat, found: Devices, l: Devices, n: nat, a: RawAddress) returns (t: nat)
    requires Distinct(found) && |found| <= capacity && Distinct(l) && |l| <= capacity && n <= |l|
    requires Has(found, a) && !Has(Left(capacity, found, l[..n]), a)
    ensures t < n
    ensures || (l[t].key == a && Overwrites(capacity, found, l, t))
            || EvictedAt(capacity, found, l, t) == Some(Entry(a, Lookup(found, a).value))
  {
    assert l[..0] == [];
    t := n - 1;
    if Has(Left(capacity, found, l[..t]), a) {
      LastMoment(capacity, found, l, t, a);
    } else {
      t := Fate(capacity, found, l, t, a);
    }
  }

  lemma {:induction false} LastMoment(capacity: nat, found: Devices, l: Devices, t: nat, a: RawAddress)
    requires Distinct(found) && |found| <= capacity && Distinct(l) && |l| <= capacity && t < |l|
    requires Has(found, a) && Has(Left(capacity, found, l[..t]), a) && !Has(Left(capacity, found, l[..t + 1]), a)
    ensures || (l[t].key == a && Overwrites(capacity, found, l, t))
            || EvictedAt(capacity, found, l, t) == Some(Entry(a, Lookup(found, a).value))
  {
    var r := Left(capacity, found, l[..t]);
    LeftUpTo(capacity, found, l, t);
    DistinctPrefix(l, t);
    LeftFacts(capacity, found, l[..t]);
    WithoutFacts(r, l[t].key);
    if !Has(r, l[t].key) {
      DropLastFacts(r);
      assert r[|r| - 1].key == a;
      IndexOfUnique(r, a, |r| - 1);
    }
  }

  /** A device is not both overwritten and evicted. */
  lemma {:induction false} NotBoth(capacity: nat, found: Devices, l: Devices, t: nat, u: nat)
    requires Distinct(found) && |found| <= capacity && Distinct(l) && |l| <= capacity
    requires t < |l| && u < |l| && Overwrites(capacity, found, l, t) && EvictedAt(capacity, found, l, u).Some?
    ensures EvictedAt(capacity, found, l, u).value.key != l[t].key
  {
    var p := EvictedAt(capacity, found, l, u).value;
    EvictedWasFound(capacity, found, l, u);
    if p.key == l[t].key {
      if u < t {
        GoneStaysGone(capacity, found, l, u + 1, t, p.key);
      } else if t < u {
        assert l[..u][t] == l[t];
        HasIndex(l[..u], t);
      }
    }
  }

  lemma {:induction false} HasIndex(l: Devices, i: nat)
    requires i < |l|
    ensures Has(l, l[i].key)
    ensures Distinct(l) ==> Lookup(l, l[i].key) == Some(l[i].value)
  {
    if Distinct(l) { IndexOfUnique(l, l[i].key, i); }
  }

  // ---------- The state after Init, by its lookups ----------

  /** The bindings after Init: those of the map, and those left of the ones found. */
  ghost predicate Binds(s: State, order: Devices, left: Devices, s': State) {
    && Exact(s) && s'.temp == s.temp && Distinct(order) && Distinct(left) && Distinct(s.temp)
    && (forall a :: Lookup(s'.paired, a) == if Has(order, a) then Lookup(order, a) else Lookup(left, a))
    && (forall a :: Has(left, a) ==> Lookup(left, a) == Lookup(s.paired, a) && !Has(order, a))
  }

  /** What is known of the state after a successful Init. */
  ghost predicate Ready(c: Limits, s: State, order: Devices, s': State) {
    && Sound(c, s) && |order| <= c.pairedCap
    && Binds(s, order, Left(c.pairedCap, s.paired, order), s')
    && (forall x :: x in s'.ids <==> InUse(c, s, order, x))
  }

  lemma {:induction false} BindsInit(c: Limits, s: State, order: Devices, refused: set<RawAddress>)
    requires Sound(c, s) && Exact(s) && Distinct(order) && InitStep(c, s, order, refused).1 == Done(true)
    ensures Binds(s, order, Left(c.pairedCap, s.paired, order), InitStep(c, s, order, refused).0)
  {
    var s', left := InitStep(c, s, order, refused).0, Left(c.pairedCap, s.paired, order);
    LoadedIs(c, s, order, refused);
    LoadedRest(c, s, order, refused);
    LeftFacts(c.pairedCap, s.paired, order);
    forall a ensures Lookup(s'.paired, a) == if Has(order, a) then Lookup(order, a) else Lookup(left, a) {
      LookupAppend(Reversed(order), left, a);
      ReversedLookup(order, a);
    }
  }

  lemma {:induction false} IsReady(c: Limits, s: State, order: Devices, refused: set<RawAddress>)
    requires Sound(c, s) && Exact(s) && Distinct(order) && InitStep(c, s, order, refused).1 == Done(true)
    ensures Ready(c, s, order, InitStep(c, s, order, refused).0)
  {
    BindsInit(c, s, order, refused);
    forall x ensures x in InitStep(c, s, order, refused).0.ids <==> InUse(c, s, order, x) {
      LoadedIds(c, s, order, refused, x);
    }
  }

  lemma {:induction false} InIds(l: Devices, a: RawAddress)
    requires Has(l, a)
    ensures Lookup(l, a).value in IdsIn(l)
  {
    assert l[IndexOf(l, a)].value in IdsIn(l);
  }

  /** An id is only freed with the device that holds it. */
  lemma {:induction false} FreesOwn(c: Limits, s: State, order: Devices, t: nat, a: RawAddress)
    requires Sound(c, s) && Exact(s) && Distinct(order) && |order| <= c.pairedCap && t < |order|
    requires IdOf(s, a).Some? && Frees(c.pairedCap, s.paired, order, t, IdOf(s, a).value)
    ensures Has(s.paired, a) && EvictedAt(c.pairedCap, s.paired, order, t) == Some(Entry(a, IdOf(s, a).value))
  {
    EvictedWasFound(c.pairedCap, s.paired, order, t);
    var p := EvictedAt(c.pairedCap, s.paired, order, t).value;
    assert IdOf(s, p.key) == Some(p.value);
  }

  // ---------- A clean map leaves the state exact ----------

  lemma {:induction false} NotBrought(s: State, order: Devices, left: Devices, s': State, a: RawAddress)
    requires Binds(s, order, left, s') && !Has(order, a) && IdOf(s', a).Some?
    ensures IdOf(s', a) == IdOf(s, a)
    ensures IdOf(s', a).value in IdsIn(s.temp) + IdsIn(left)
  {
    if Has(left, a) { InIds(left, a); } else { InIds(s.temp, a); }
  }

  lemma {:induction false} BroughtIsNew(order: Devices, temp: Devices, left: Devices, a: RawAddress)
    requires NewIds(order, temp, left) && Has(order, a)
    ensures Lookup(order, a).value !in IdsIn(temp) + IdsIn(left) && !Has(temp, a)
  {
    assert order[IndexOf(order, a)].key == a;
  }

  lemma {:induction false} CleanPair(s: State, order: Devices, left: Devices, s': State, a: RawAddress, b: RawAddress)
    requires Binds(s, order, left, s') && NewIds(order, s.temp, left)
    requires a != b && IdOf(s', a).Some? && IdOf(s', b).Some?
    ensures IdOf(s', a) != IdOf(s', b)
  {
    if !Has(order, a) { NotBrought(s, order, left, s', a); } else { BroughtIsNew(order, s.temp, left, a); }
    if !Has(order, b) { NotBrought(s, order, left, s', b); } else { BroughtIsNew(order, s.temp, left, b); }
    if Has(order, a) && Has(order, b) {
      assert order[IndexOf(order, a)].value != order[IndexOf(order, b)].value;
    }
  }

  lemma {:induction false} CleanUnique(s: State, order: Devices, left: Devices, s': State)
    requires Binds(s, order, left, s') && NewIds(order, s.temp, left)
    ensures forall a :: Lookup(s'.paired, a) == None || Lookup(s'.temp, a) == None
    ensures forall a, b :: a != b && IdOf(s', a).Some? ==> IdOf(s', a) != IdOf(s', b)
  {
    forall a ensures Lookup(s'.paired, a) == None || Lookup(s'.temp, a) == None {
      if Has(order, a) { BroughtIsNew(order, s.temp, left, a); }
    }
    forall a, b | a != b && IdOf(s', a).Some? ensures IdOf(s', a) != IdOf(s', b) {
      if IdOf(s', b).Some? { CleanPair(s, order, left, s', a, b); }
    }
  }

  /** Every cached device's id is in use. */
  lemma {:induction false} CleanUsed(c: Limits, s: State, order: Devices, s': State, a: RawAddress)
    requires Ready(c, s, order, s') && CleanFor(c, s, order) && IdOf(s', a).Some?
    ensures IdOf(s', a).value in s'.ids
  {
    var cap, x := c.pairedCap, IdOf(s', a).value;
    assert order[..|order|] == order;
    if Has(order, a) {
      var j := IndexOf(order, a);
      assert order[j].value == x && InUseFrom(cap, s.paired, order, j, x);
    } else {
      assert IdOf(s, a) == Some(x);
      forall t | 0 <= t < |order| ensures !Frees(cap, s.paired, order, t, x) {
        if Frees(cap, s.paired, order, t, x) {
          FreesOwn(c, s, order, t, a);
          EvictedWasFound(cap, s.paired, order, t);
          GoneStaysGone(cap, s.paired, order, t + 1, |order|, a);
        }
      }
      assert InUseFrom(cap, s.paired, order, -1, x);
    }
  }

  /** Every id in use is held. */
  lemma {:induction false} CleanHeld(c: Limits, s: State, order: Devices, s': State, x: int)
    requires Ready(c, s, order, s') && CleanFor(c, s, order) && x in s'.ids
    ensures exists a :: IdOf(s', a) == Some(x)
  {
    var cap := c.pairedCap;
    if i :| 0 <= i < |order| && order[i].value == x {
      HasIndex(order, i);
      assert IdOf(s', order[i].key) == Some(x);
    } else {
      var a :| IdOf(s, a) == Some(x);
      if IdOf(s', a) != Some(x) {
        assert order[..|order|] == order;
        if Has(s.paired, a) {
          var t := Fate(cap, s.paired, order, |order|, a);
          if EvictedAt(cap, s.paired, order, t) == Some(Entry(a, x)) { assert Frees(cap, s.paired, order, t, x); }
        }
      }
    }
  }

  lemma {:induction false} CleanExact(c: Limits, s: State, order: Devices, s': State)
    requires Ready(c, s, order, s') && CleanFor(c, s, order)
    ensures Exact(s')
  {
    CleanUnique(s, order, Left(c.pairedCap, s.paired, order), s');
    forall a | IdOf(s', a).Some? ensures IdOf(s', a).value in s'.ids { CleanUsed(c, s, order, s', a); }
    forall x | x in s'.ids ensures exists a :: IdOf(s', a) == Some(x) { CleanHeld(c, s, order, s', x); }
  }

  // ---------- And only a clean map does ----------

  lemma {:induction false} BroughtIsKnown(s: State, order: Devices, left: Devices, s': State, i: nat)
    requires Binds(s, order, left, s') && i < |order|
    ensures Has(order, order[i].key) && IdOf(s', order[i].key) == Some(order[i].value)
  {
    HasIndex(order, i);
  }

  /** What the map brings, it brings once. */
  lemma {:induction false} ExactBringsOnce(s: State, order: Devices, left: Devices, s': State, i: nat, j: nat)
    requires Binds(s, order, left, s') && Exact(s') && i < j < |order|
    ensures order[i].value != order[j].value
  {
    BroughtIsKnown(s, order, left, s', i);
    BroughtIsKnown(s, order, left, s', j);
  }

  /** What the map brings is new to the temporary cache. */
  lemma {:induction false} ExactBringsNew(s: State, order: Devices, left: Devices, s': State, i: nat)
    requires Binds(s, order, left, s') && Exact(s') && i < |order|
    ensures !Has(s.temp, order[i].key) && order[i].value !in IdsIn(s.temp)
  {
    BroughtIsKnown(s, order, left, s', i);
    assert Lookup(s'.paired, order[i].key) == None || Lookup(s'.temp, order[i].key) == None;
    forall j | 0 <= j < |s.temp| ensures s.temp[j].value != order[i].value {
      HasIndex(s.temp, j);
      assert Lookup(s'.paired, s.temp[j].key) == None;
      assert IdOf(s', s.temp[j].key) == Some(s.temp[j].value);
    }
  }

  /** And it is new to the devices that stay. */
  lemma {:induction false} ExactBringsOther(s: State, order: Devices, left: Devices, s': State, i: nat)
    requires Binds(s, order, left, s') && Exact(s') && i < |order|
    ensures order[i].value !in IdsIn(left)
  {
    BroughtIsKnown(s, order, left, s', i);
    forall j | 0 <= j < |left| ensures left[j].value != order[i].value {
      HasIndex(left, j);
      assert IdOf(s', left[j].key) == Some(left[j].value);
    }
  }

  lemma {:induction false} ExactNewIds(s: State, order: Devices, left: Devices, s': State)
    requires Binds(s, order, left, s') && Exact(s')
    ensures NewIds(order, s.temp, left)
  {
    forall i, j | 0 <= i < j < |order| ensures order[i].value != order[j].value {
      ExactBringsOnce(s, order, left, s', i, j);
    }
    forall i | 0 <= i < |order| ensures !Has(s.temp, order[i].key) && order[i].value !in IdsIn(s.temp) + IdsIn(left) {
      ExactBringsNew(s, order, left, s', i);
      ExactBringsOther(s, order, left, s', i);
    }
  }

  /** No id is freed after the map has brought it. */
  lemma {:induction false} ExactFreesFirst(c: Limits, s: State, order: Devices, s': State, j: nat, t: nat)
    requires Ready(c, s, order, s') && Exact(s') && j < t < |order|
    ensures !Frees(c.pairedCap, s.paired, order, t, order[j].value)
  {
    var x := order[j].value;
    var left := Left(c.pairedCap, s.paired, order);
    BroughtIsKnown(s, order, left, s', j);
    ExactNewIds(s, order, left, s');
    assert InUse(c, s, order, x);
    if x in s.ids && InUseFrom(c.pairedCap, s.paired, order, -1, x) {
    } else {
      var i :| 0 <= i < |order| && order[i].value == x && InUseFrom(c.pairedCap, s.paired, order, i, x);
      assert i == j;
    }
  }

  /** An id that the map overwrites it brings again. */
  lemma {:induction false} ExactBringsAgain(c: Limits, s: State, order: Devices, s': State, t: nat)
    requires Ready(c, s, order, s') && Exact(s') && t < |order| && Overwrites(c.pairedCap, s.paired, order, t)
    ensures Has(s.paired, order[t].key) && Lookup(s.paired, order[t].key).value in IdsIn(order)
  {
    var cap, a := c.pairedCap, order[t].key;
    DistinctPrefix(order, t);
    LeftFacts(cap, s.paired, order[..t]);
    var x := Lookup(s.paired, a).value;
    assert IdOf(s, a) == Some(x);
    if x !in IdsIn(order) {
      forall u | 0 <= u < |order| ensures !Frees(cap, s.paired, order, u, x) {
        if Frees(cap, s.paired, order, u, x) {
          FreesOwn(c, s, order, u, a);
          NotBoth(cap, s.paired, order, t, u);
        }
      }
      assert InUseFrom(cap, s.paired, order, -1, x);
      HasIndex(order, t);
      NotHeld(c, s, order, s', a, x);
    }
  }

  lemma {:induction false} NotHeld(c: Limits, s: State, order: Devices, s': State, a: RawAddress, x: int)
    requires Ready(c, s, order, s') && IdOf(s, a) == Some(x) && Has(s.paired, a) && Has(order, a) && x !in IdsIn(order)
    ensures forall b :: IdOf(s', b) != Some(x)
  {
    forall b ensures IdOf(s', b) != Some(x) {
      if Has(order, b) {
        InIds(order, b);
      } else if IdOf(s', b).Some? {
        assert IdOf(s, b) == IdOf(s', b) && a != b;
      }
    }
  }

  /**
   * After a successful Init the used ids are exactly those of the cached devices, each held by
   * one device, exactly if the map is clean for the state it finds.
   */
  lemma {:induction false} InitExactIff(c: Limits, s: State, order: Devices, refused: set<RawAddress>)
    requires Sound(c, s) && Exact(s) && Distinct(order)
    requires InitStep(c, s, order, refused).1 == Done(true)
    ensures Exact(InitStep(c, s, order, refused).0) <==> CleanFor(c, s, order)
  {
    var s' := InitStep(c, s, order, refused).0;
    IsReady(c, s, order, refused);
    if CleanFor(c, s, order) {
      CleanExact(c, s, order, s');
    } else if Exact(s') {
      ExactClean(c, s, order, s');
    }
  }

  lemma {:induction false} ExactClean(c: Limits, s: State, order: Devices, s': State)
    requires Ready(c, s, order, s') && Exact(s')
    ensures CleanFor(c, s, order)
  {
    ExactNewIds(s, order, Left(c.pairedCap, s.paired, order), s');
    forall j, t | 0 <= j < t < |order| ensures !Frees(c.pairedCap, s.paired, order, t, order[j].value) {
      ExactFreesFirst(c, s, order, s', j, t);
    }
    forall t | Overwrites(c.pairedCap, s.paired, order, t)
      ensures Has(s.paired, order[t].key) && Lookup(s.paired, order[t].key).value in IdsIn(order) {
      ExactBringsAgain(c, s, order, s', t);
    }
  }
}
