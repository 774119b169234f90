/**
 * What Init makes of a state in which devices are paired already: those saved since the last
 * Close, through callbacks that Close leaves set.
 */
module MetricIdInit {
  import opened Common
  import opened RecencyList
  import opened Addresses
  import opened MetricIds

  // ---------- Devices found, while the map is loaded in front of them ----------

  /** One more device loaded, after `n`: it is taken from among those found, or the last of a full cache is evicted. */
  function LeftStep(capacity: nat, r: Devices, n: nat, a: RawAddress): Devices {
    if Has(r, a) then Without(r, a)
    else if r != [] && n + |r| == capacity then r[..|r| - 1]
    else r
  }

  /** What is left of the devices found, after loading `l`. */
  function Left(capacity: nat, found: Devices, l: Devices): Devices {
    if l == [] then found
    else LeftStep(capacity, Left(capacity, found, l[..|l| - 1]), |l| - 1, l[|l| - 1].key)
  }

  /** The device that loading number `t` evicts. */
  function EvictedAt(capacity: nat, found: Devices, l: Devices, t: nat): Option<Entry<RawAddress, int>>
    requires t < |l|
  {
    var r := Left(capacity, found, l[..t]);
    if !Has(r, l[t].key) && r != [] && t + |r| == capacity then Some(r[|r| - 1]) else None
  }

  lemma {:induction false} IndexOfAppend(x: Devices, y: Devices, a: RawAddress)
    ensures IndexOf(x + y, a) == if IndexOf(x, a) < |x| then IndexOf(x, a) else |x| + IndexOf(y, a)
  {
    if x == [] {
      assert x + y == y;
    } else {
      var r := x + y;
      assert r[0] == x[0] && r[1..] == x[1..] + y;
      IndexOfAppend(x[1..], y, a);
    }
  }

  lemma {:induction false} LookupAppend(x: Devices, y: Devices, a: RawAddress)
    ensures Lookup(x + y, a) == if Has(x, a) then Lookup(x, a) else Lookup(y, a)
  {
    IndexOfAppend(x, y, a);
  }

  lemma {:induction false} WithoutAppend(x: Devices, y: Devices, a: RawAddress)
    requires !Has(x, a)
    ensures Without(x + y, a) == x + Without(y, a)
  {
    IndexOfAppend(x, y, a);
    if Has(y, a) { RemoveBehind(x, y, IndexOf(y, a)); }
  }

  lemma {:induction false} RemoveBehind(x: Devices, y: Devices, i: nat)
    requires i < |y|
    ensures (x + y)[..|x| + i] + (x + y)[|x| + i + 1..] == x + (y[..i] + y[i + 1..])
  {
    assert (x + y)[..|x| + i] == x + y[..i];
    assert (x + y)[|x| + i + 1..] == y[i + 1..];
  }

  /** A Put of a device that is not among the first ones. */
  lemma {:induction false} PutBehind(front: Devices, r: Devices, capacity: nat, a: RawAddress, id: int)
    requires !Has(front, a) && |front| < capacity && |front| + |r| <= capacity
    ensures Put(front + r, capacity, a, id) == [Entry(a, id)] + front + LeftStep(capacity, r, |front|, a)
    ensures Evicted(front + r, capacity, a)
            == if !Has(r, a) && r != [] && |front| + |r| == capacity then Some(r[|r| - 1]) else None
  {
    LookupAppend(front, r, a);
    if Has(r, a) {
      WithoutAppend(front, r, a);
      ConsAssoc(Entry(a, id), front, Without(r, a));
    } else {
      CutBehind(front, r);
      ConsAssoc(Entry(a, id), front, LeftStep(capacity, r, |front|, a));
    }
  }

  lemma {:induction false} ConsAssoc(e: Entry<RawAddress, int>, x: Devices, y: Devices)
    ensures [e] + (x + y) == [e] + x + y
  {
  }

  lemma {:induction false} CutBehind(x: Devices, y: Devices)
    ensures y != [] ==> (x + y)[..|x + y| - 1] == x + y[..|y| - 1] && (x + y)[|x + y| - 1] == y[|y| - 1]
  {
  }

  lemma {:induction false} ReversedLookup(l: Devices, a: RawAddress)
    requires Distinct(l)
    ensures Lookup(Reversed(l), a) == Lookup(l, a)
  {
    var r := Reversed(l);
    if Has(l, a) {
      IndexOfUnique(r, a, |l| - 1 - IndexOf(l, a));
    }
  }

  lemma {:induction false} DistinctPrefix(l: Devices, n: nat)
    requires Distinct(l) && n <= |l|
    ensures Distinct(l[..n])
    ensures n < |l| ==> !Has(l[..n], l[n].key) && !Has(Reversed(l[..n]), l[n].key)
  {
    if n < |l| { ReversedLookup(l[..n], l[n].key); }
  }

  lemma {:induction false} LeftStepFacts(capacity: nat, r: Devices, n: nat, a: RawAddress)
    requires Distinct(r) && n < capacity && n + |r| <= capacity
    ensures Distinct(LeftStep(capacity, r, n, a)) && n + 1 + |LeftStep(capacity, r, n, a)| <= capacity
    ensures forall b :: Has(LeftStep(capacity, r, n, a), b) ==>
              b != a && Lookup(LeftStep(capacity, r, n, a), b) == Lookup(r, b)
  {
    WithoutFacts(r, a);
    if r != [] { DropLastFacts(r); }
  }

  /** Nothing is left of a device loaded, and those left are bound as they were found. */
  lemma {:induction false} LeftFacts(capacity: nat, found: Devices, l: Devices)
    requires Distinct(found) && |found| <= capacity && Distinct(l) && |l| <= capacity
    ensures Distinct(Left(capacity, found, l)) && |l| + |Left(capacity, found, l)| <= capacity
    ensures forall a :: Has(Left(capacity, found, l), a) ==>
              Lookup(Left(capacity, found, l), a) == Lookup(found, a) && !Has(l, a)
  {
    if l != [] {
      var n := |l| - 1;
      var before, a := l[..n], l[n].key;
      var r := Left(capacity, found, before);
      DistinctPrefix(l, n);
      LeftFacts(capacity, found, before);
      LeftStepFacts(capacity, r, n, a);
      assert l[..n + 1] == l;
      forall b | Has(LeftStep(capacity, r, n, a), b) ensures Lookup(r, b) == Lookup(found, b) && !Has(l, b) {
        PrefixHas(l, n, b);
      }
    }
  }

  lemma {:induction false} PrefixHas(l: Devices, n: nat, a: RawAddress)
    requires n < |l|
    ensures Has(l[..n + 1], a) <==> Has(l[..n], a) || l[n].key == a
  {
    assert l[..n + 1] == l[..n] + [l[n]];
    LookupAppend(l[..n], [l[n]], a);
  }

  /** After loading `l` the paired cache is `l`, last loaded first, and then what is left of what was found. */
  lemma {:induction false} LoadedIs(c: Limits, s: State, l: Devices, refused: set<RawAddress>)
    requires c.Roomy() && Distinct(s.paired) && |s.paired| <= c.pairedCap && Distinct(l) && |l| <= c.pairedCap
    ensures Loaded(c, s, l, refused).paired == Reversed(l) + Left(c.pairedCap, s.paired, l)
  {
    if l == [] {
      assert Reversed(l) + s.paired == s.paired;
    } else {
      var n := |l| - 1;
      DistinctPrefix(l, n);
      LoadedIs(c, s, l[..n], refused);
      LoadOneIs(c, s, l, refused);
      ReversedSnoc(l);
    }
  }

  lemma {:induction false} ReversedSnoc(l: Devices)
    requires l != []
    ensures Reversed(l) == [l[|l| - 1]] + Reversed(l[..|l| - 1])
  {
  }

  /** Init's loop leaves the rest alone, but for the cursor. */
  lemma {:induction false} LoadedRest(c: Limits, s: State, l: Devices, refused: set<RawAddress>)
    requires c.Roomy()
    ensures var t := Loaded(c, s, l, refused);
      && t.next == PastAll(c.minId, l)
      && t.temp == s.temp && t.initialized == s.initialized && t.callbacks == s.callbacks
  {
    if l != [] { LoadedRest(c, s, l[..|l| - 1], refused); }
  }

  lemma {:induction false} LoadOneIs(c: Limits, s: State, l: Devices, refused: set<RawAddress>)
    requires c.Roomy() && Distinct(s.paired) && |s.paired| <= c.pairedCap && Distinct(l) && 0 < |l| <= c.pairedCap
    requires var n := |l| - 1;
      Loaded(c, s, l[..n], refused).paired == Reversed(l[..n]) + Left(c.pairedCap, s.paired, l[..n])
    ensures var n := |l| - 1;
      var before := Loaded(c, s, l[..n], refused);
      && Evicted(before.paired, c.pairedCap, l[n].key) == EvictedAt(c.pairedCap, s.paired, l, n)
      && Put(before.paired, c.pairedCap, l[n].key, l[n].value)
         == [l[n]] + Reversed(l[..n]) + Left(c.pairedCap, s.paired, l)
  {
    var n := |l| - 1;
    DistinctPrefix(l, n);
    LeftFacts(c.pairedCap, s.paired, l[..n]);
    PutBehind(Reversed(l[..n]), Left(c.pairedCap, s.paired, l[..n]), c.pairedCap, l[n].key, l[n].value);
    assert Entry(l[n].key, l[n].value) == l[n];
  }

  // ---------- When Init evicts ----------

  ghost function KeySet(l: Devices): set<RawAddress> {
    set i | 0 <= i < |l| :: l[i].key
  }

  lemma {:induction false} KeySetIsHas(l: Devices, a: RawAddress)
    ensures a in KeySet(l) <==> Has(l, a)
  {
    if Has(l, a) { assert l[IndexOf(l, a)].key == a; }
  }

  lemma {:induction false} KeyCount(l: Devices)
    requires Distinct(l)
    ensures |KeySet(l)| == |l|
  {
    if l == [] {
      assert KeySet(l) == {};
    } else {
      var n := |l| - 1;
      KeyCount(l[..n]);
      KeysSnoc(l);
    }
  }

  lemma {:induction false} KeysSnoc(l: Devices)
    requires l != []
    ensures KeySet(l) == KeySet(l[..|l| - 1]) + {l[|l| - 1].key}
    ensures Distinct(l) ==> l[|l| - 1].key !in KeySet(l[..|l| - 1])
  {
    var n := |l| - 1;
    forall i | 0 <= i < n ensures l[..n][i] == l[i] { }
  }

  ghost predicate Evicts(capacity: nat, found: Devices, l: Devices) {
    exists t :: 0 <= t < |l| && EvictedAt(capacity, found, l, t).Some?
  }

  lemma {:induction false} EvictedAtPrefix(capacity: nat, found: Devices, l: Devices, n: nat, t: nat)
    requires t < n <= |l|
    ensures EvictedAt(capacity, found, l[..n], t) == EvictedAt(capacity, found, l, t)
  {
    assert l[..n][..t] == l[..t];
  }

  /** Devices loaded and devices left: as many as there are addresses. */
  lemma {:induction false} CachedCount(capacity: nat, found: Devices, l: Devices)
    requires Distinct(found) && |found| <= capacity && Distinct(l) && |l| <= capacity
    ensures var left := Left(capacity, found, l);
      |KeySet(l) + KeySet(left)| == |l| + |left| && KeySet(l) !! KeySet(left)
  {
    var left := Left(capacity, found, l);
    LeftFacts(capacity, found, l);
    forall a | a in KeySet(left) ensures a !in KeySet(l) { KeySetIsHas(left, a); KeySetIsHas(l, a); }
    KeyCount(l);
    KeyCount(left);
  }

  /** As long as nothing is evicted, every device found or loaded is cached. */
  lemma {:induction false} NothingEvicted(capacity: nat, found: Devices, l: Devices)
    requires Distinct(found) && |found| <= capacity && Distinct(l) && |l| <= capacity && !Evicts(capacity, found, l)
    ensures KeySet(l) + KeySet(Left(capacity, found, l)) == KeySet(l) + KeySet(found)
  {
    if l != [] {
      var n := |l| - 1;
      var before, r := l[..n], Left(capacity, found, l[..n]);
      DistinctPrefix(l, n);
      NoneBefore(capacity, found, l);
      NothingEvicted(capacity, found, before);
      LeftFacts(capacity, found, before);
      KeysSnoc(l);
      LeftStepKeys(capacity, r, n, l[n].key);
      assert KeySet(l) + KeySet(LeftStep(capacity, r, n, l[n].key)) == KeySet(before) + KeySet(r) + {l[n].key};
    }
  }

  lemma {:induction false} NoneBefore(capacity: nat, found: Devices, l: Devices)
    requires l != [] && !Evicts(capacity, found, l)
    ensures !Evicts(capacity, found, l[..|l| - 1]) && EvictedAt(capacity, found, l, |l| - 1) == None
  {
    var n := |l| - 1;
    forall t | 0 <= t < n ensures EvictedAt(capacity, found, l[..n], t) == None { EvictedAtPrefix(capacity, found, l, n, t); }
  }

  lemma {:induction false} LeftStepKeys(capacity: nat, r: Devices, n: nat, a: RawAddress)
    requires Distinct(r) && (Has(r, a) || r == [] || n + |r| != capacity)
    ensures KeySet(LeftStep(capacity, r, n, a)) + {a} == KeySet(r) + {a}
  {
    WithoutFacts(r, a);
    forall b ensures b in KeySet(LeftStep(capacity, r, n, a)) + {a} <==> b in KeySet(r) + {a} {
      KeySetIsHas(r, b);
      KeySetIsHas(LeftStep(capacity, r, n, a), b);
    }
  }

  lemma {:induction false} KeysOfPrefix(l: Devices, n: nat)
    requires n < |l|
    ensures KeySet(l[..n]) <= KeySet(l) && l[n].key in KeySet(l)
  {
    forall i | 0 <= i < n ensures l[..n][i].key in KeySet(l) { assert l[..n][i] == l[i]; }
  }

  lemma {:induction false} MoreKeys(a: set<RawAddress>, b: set<RawAddress>)
    requires a <= b
    ensures |a| <= |b|
  {
    assert b == a + (b - a);
  }

  /** An eviction means that there are more addresses than places. */
  lemma {:induction false} EvictionMeansMore(capacity: nat, found: Devices, l: Devices, t: nat)
    requires Distinct(found) && |found| <= capacity && Distinct(l) && |l| <= capacity
    requires t < |l| && EvictedAt(capacity, found, l, t).Some?
    ensures |KeySet(found) + KeySet(l)| > capacity
  {
    var before, r, a := l[..t], Left(capacity, found, l[..t]), l[t].key;
    DistinctPrefix(l, t);
    CachedCount(capacity, found, before);
    LeftFacts(capacity, found, before);
    KeysOfPrefix(l, t);
    KeySetIsHas(r, a);
    KeySetIsHas(before, a);
    forall b | b in KeySet(r) ensures b in KeySet(found) { KeySetIsHas(r, b); KeySetIsHas(found, b); }
    var some := KeySet(before) + KeySet(r) + {a};
    assert |some| == capacity + 1;
    MoreKeys(some, KeySet(found) + KeySet(l));
  }

  /** Init evicts exactly if the devices found and the devices of the map do not fit together. */
  lemma {:induction false} InitEvictsIff(capacity: nat, found: Devices, order: Devices)
    requires Distinct(found) && |found| <= capacity && Distinct(order) && |order| <= capacity
    ensures Evicts(capacity, found, order) <==> |KeySet(found) + KeySet(order)| > capacity
  {
    if Evicts(capacity, found, order) {
      var t :| 0 <= t < |order| && EvictedAt(capacity, found, order, t).Some?;
      EvictionMeansMore(capacity, found, order, t);
    } else {
      NothingEvicted(capacity, found, order);
      CachedCount(capacity, found, order);
      LeftFacts(capacity, found, order);
      assert KeySet(order) + KeySet(found) == KeySet(found) + KeySet(order);
    }
  }

  // ---------- Which ids are in use after loading ----------

  /** Loading number `t` evicts a device and frees its id `x`. */
  ghost predicate Frees(capacity: nat, found: Devices, l: Devices, t: int, x: int) {
    0 <= t < |l| && EvictedAt(capacity, found, l, t).Some? && EvictedAt(capacity, found, l, t).value.value == x
  }

  /** `x` was brought by number `j` of the list, or for j = -1 was in use before, and not freed since. */
  ghost predicate InUseFrom(capacity: nat, found: Devices, l: Devices, j: int, x: int) {
    forall t :: j < t < |l| ==> !Frees(capacity, found, l, t, x)
  }

  ghost predicate InUse(c: Limits, s: State, l: Devices, x: int) {
    || (x in s.ids && InUseFrom(c.pairedCap, s.paired, l, -1, x))
    || (exists j :: 0 <= j < |l| && l[j].value == x && InUseFrom(c.pairedCap, s.paired, l, j, x))
  }

  lemma {:induction false} InUseFromSnoc(capacity: nat, found: Devices, l: Devices, j: int, x: int)
    requires l != [] && -1 <= j < |l| - 1
    ensures InUseFrom(capacity, found, l, j, x) <==>
            InUseFrom(capacity, found, l[..|l| - 1], j, x) && !Frees(capacity, found, l, |l| - 1, x)
  {
    var n := |l| - 1;
    forall t | 0 <= t < n ensures Frees(capacity, found, l[..n], t, x) <==> Frees(capacity, found, l, t, x) {
      EvictedAtPrefix(capacity, found, l, n, t);
    }
  }

  lemma {:induction false} InUseSnoc(c: Limits, s: State, l: Devices, x: int)
    requires l != []
    ensures var n := |l| - 1;
      InUse(c, s, l, x) <==> l[n].value == x || (InUse(c, s, l[..n], x) && !Frees(c.pairedCap, s.paired, l, n, x))
  {
    var n, cap, found := |l| - 1, c.pairedCap, s.paired;
    forall j | -1 <= j < n
      ensures InUseFrom(cap, found, l, j, x) <==> InUseFrom(cap, found, l[..n], j, x) && !Frees(cap, found, l, n, x)
    {
      InUseFromSnoc(cap, found, l, j, x);
    }
    assert forall j :: 0 <= j < n ==> l[..n][j] == l[j];
    if l[n].value == x { assert InUseFrom(cap, found, l, n, x); }
    if InUse(c, s, l[..n], x) && !Frees(cap, found, l, n, x) && !(x in s.ids && InUseFrom(cap, found, l[..n], -1, x)) {
      var j :| 0 <= j < n && l[..n][j].value == x && InUseFrom(cap, found, l[..n], j, x);
      assert l[j].value == x && InUseFrom(cap, found, l, j, x);
    }
  }

  lemma {:induction false} LoadedIds(c: Limits, s: State, l: Devices, refused: set<RawAddress>, x: int)
    requires c.Roomy() && Distinct(s.paired) && |s.paired| <= c.pairedCap && Distinct(l) && |l| <= c.pairedCap
    ensures x in Loaded(c, s, l, refused).ids <==> InUse(c, s, l, x)
  {
    if l == [] {
      assert InUseFrom(c.pairedCap, s.paired, l, -1, x);
    } else {
      var n := |l| - 1;
      LoadedIds(c, s, l[..n], refused, x);
      LoadedIs(c, s, l[..n], refused);
      LoadOneIs(c, s, l, refused);
      InUseSnoc(c, s, l, x);
    }
  }
}
