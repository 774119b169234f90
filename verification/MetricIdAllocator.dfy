/**
 * The allocator object. Each method is one lock scope of the source; the result of
 * a callback is a parameter, and `store` is what the callbacks write to.
 */
module MetricIdAllocator {
  import opened Common
  import opened RecencyList
  import opened Addresses
  import opened MetricIds
  import opened MetricIdInit
  import opened MetricIdRuns
  import Lru = LruCache

  class MetricIdAllocator {
    const limits: Limits
    const pairedCache: Lru.LruCache<RawAddress, int>
    const temporaryCache: Lru.LruCache<RawAddress, int>
    var idSet: set<int>
    var nextId: int
    var initialized: bool
    var callbacksSet: bool
    var store: map<RawAddress, int>

    /** The two caches are separate objects, down to their nodes. */
    ghost predicate Separate()
      reads pairedCache, temporaryCache, pairedCache.Repr, temporaryCache.Repr
    {
      && pairedCache.Valid() && pairedCache.capacity == limits.pairedCap
      && temporaryCache.Valid() && temporaryCache.capacity == limits.tempCap
      && pairedCache.Repr !! temporaryCache.Repr
      && this !in pairedCache.Repr && this !in temporaryCache.Repr
    }

    ghost function Abs(): State
      reads this, pairedCache, temporaryCache
    {
      State(pairedCache.contents, temporaryCache.contents, idSet, nextId, initialized, callbacksSet, store)
    }

    ghost predicate Valid()
      reads this, pairedCache, temporaryCache, pairedCache.Repr, temporaryCache.Repr
    {
      Separate() && Sound(limits, Abs())
    }

    constructor (limits: Limits, store: map<RawAddress, int>)
      requires limits.Roomy()
      ensures Valid() && this.limits == limits
      ensures Abs() == Start(limits, store)
      ensures fresh(pairedCache.Repr) && fresh(temporaryCache.Repr)
    {
      this.limits := limits;
      var paired := new Lru.LruCache<RawAddress, int>(limits.pairedCap);
      var temporary := new Lru.LruCache<RawAddress, int>(limits.tempCap);
      pairedCache := paired;
      temporaryCache := temporary;
      idSet := {};
      nextId := limits.minId;
      initialized := false;
      callbacksSet := false;
      this.store := store;
    }

    // ---------- The caches, one call at a time ----------

    method GetPaired(a: RawAddress) returns (hit: Option<int>)
      requires Separate()
      modifies pairedCache
      ensures pairedCache.Repr == old(pairedCache.Repr)
      ensures Separate() && hit == Lookup(old(Abs()).paired, a)
      ensures Abs() == old(Abs()).(paired := Touch(old(Abs()).paired, a))
    {
      hit := pairedCache.Get(a);
    }

    method GetTemporary(a: RawAddress) returns (hit: Option<int>)
      requires Separate()
      modifies temporaryCache
      ensures temporaryCache.Repr == old(temporaryCache.Repr)
      ensures Separate() && hit == Lookup(old(Abs()).temp, a)
      ensures Abs() == old(Abs()).(temp := Touch(old(Abs()).temp, a))
    {
      hit := temporaryCache.Get(a);
    }

    method PutPaired(a: RawAddress, id: int) returns (evicted: Option<Entry<RawAddress, int>>)
      requires Separate()
      modifies pairedCache.Repr
      ensures fresh(pairedCache.Repr - old(pairedCache.Repr))
      ensures Separate() && evicted == Evicted(old(Abs()).paired, limits.pairedCap, a)
      ensures Abs() == old(Abs()).(paired := Put(old(Abs()).paired, limits.pairedCap, a, id))
    {
      evicted := pairedCache.Put(a, id);
    }

    method PutTemporary(a: RawAddress, id: int) returns (evicted: Option<Entry<RawAddress, int>>)
      requires Separate()
      modifies temporaryCache.Repr
      ensures fresh(temporaryCache.Repr - old(temporaryCache.Repr))
      ensures Separate() && evicted == Evicted(old(Abs()).temp, limits.tempCap, a)
      ensures Abs() == old(Abs()).(temp := Put(old(Abs()).temp, limits.tempCap, a, id))
    {
      evicted := temporaryCache.Put(a, id);
    }

    /** Takes out a device that a lookup has just found. */
    method RemovePaired(a: RawAddress, ghost before: Devices)
      requires Separate() && Distinct(before) && Has(before, a) && pairedCache.contents == Touch(before, a)
      modifies pairedCache
      ensures pairedCache.Repr == old(pairedCache.Repr)
      ensures Separate() && Abs() == old(Abs()).(paired := Without(before, a))
    {
      RemoveTouched(before, a);
      var removed := pairedCache.Remove(a);
      if !removed {
        assert false;
      }
    }

    method RemoveTemporary(a: RawAddress, ghost before: Devices)
      requires Separate() && Distinct(before) && Has(before, a) && temporaryCache.contents == Touch(before, a)
      modifies temporaryCache
      ensures temporaryCache.Repr == old(temporaryCache.Repr)
      ensures Separate() && Abs() == old(Abs()).(temp := Without(before, a))
    {
      RemoveTouched(before, a);
      var removed := temporaryCache.Remove(a);
      if !removed {
        assert false;
      }
    }

    /** Writes the allocator's own fields, leaving the caches alone. */
    method Record(ids: set<int>, next: int, saved: map<RawAddress, int>)
      requires Separate()
      modifies this`idSet, this`nextId, this`store
      ensures Separate()
      ensures Abs() == old(Abs()).(ids := ids, next := next, store := saved)
    {
      idSet := ids;
      nextId := next;
      store := saved;
    }

    method SetInitialized()
      requires Separate()
      modifies this`initialized, this`callbacksSet
      ensures Separate()
      ensures Abs() == old(Abs()).(initialized := true, callbacks := true)
    {
      callbacksSet := true;
      initialized := true;
    }

    // ---------- The calls ----------

    /** `order` lists the given map in its iteration order; `refused` are the devices whose forget callback fails. */
    method Init(order: Devices, refused: set<RawAddress>) returns (reply: Reply)
      requires Valid() && Distinct(order)
      modifies this, pairedCache.Repr
      ensures fresh(pairedCache.Repr - old(pairedCache.Repr))
      ensures reply == InitStep(limits, old(Abs()), order, refused).1
      ensures reply != Fatal ==> Valid() && Abs() == InitStep(limits, old(Abs()), order, refused).0
    {
      if initialized {
        return Done(false);
      }
      if |order| > limits.pairedCap {
        return Fatal;
      }
      ghost var s := Abs();
      InitSound(limits, s, order, refused);
      var ok, ids, next, saved := LoadAll(limits, pairedCache, order, refused, idSet, store, s);
      if !ok {
        return Fatal;
      }
      LoadedRest(limits, s, order, refused);
      Record(ids, if next > limits.maxId then limits.minId else next, saved);
      SetInitialized();
      return Done(true);
    }

    method Close() returns (reply: Reply)
      requires Valid()
      modifies this, pairedCache, temporaryCache
      ensures Valid()
      ensures (Abs(), reply) == CloseStep(old(Abs()))
    {
      if !initialized {
        return Done(false);
      }
      pairedCache.Clear();
      temporaryCache.Clear();
      idSet := {};
      initialized := false;
      return Done(true);
    }

    method IsEmpty() returns (empty: bool)
      requires Valid()
      ensures empty <==> forall a :: IdOf(Abs(), a) == None
    {
      var p := pairedCache.Size();
      var t := temporaryCache.Size();
      empty := p == 0 && t == 0;
      ghost var s := Abs();
      if !empty {
        var l := if p != 0 then s.paired else s.temp;
        IndexOfUnique(l, l[0].key, 0);
        assert IdOf(s, l[0].key) != None;
      }
    }

    /**
     * Moves the cursor to the first free id, and returns it. The source has no bound on the
     * search: None stands for going round for ever, and is found out after one round.
     */
    method FindFreeId() returns (id: Option<int>)
      requires Valid()
      modifies this`nextId
      ensures id == None <==> AllUsed(limits, idSet)
      ensures id.Some? ==>
        && id.value == nextId == NextFree(limits, idSet, old(nextId), 0)
        && FirstFree(limits, idSet, old(nextId), id.value) && limits.InRange(id.value)
      ensures Separate() && Abs() == old(Abs()).(next := nextId)
    {
      ghost var from := nextId;
      var steps := 0;
      while nextId in idSet && steps < limits.Size()
        invariant 0 <= steps <= limits.Size() && nextId == limits.Ahead(from, steps) && limits.InRange(nextId)
        invariant forall j :: 0 <= j < steps ==> limits.Ahead(from, j) in idSet
      {
        nextId := nextId + 1;
        if nextId > limits.maxId {
          nextId := limits.minId;
        }
        steps := steps + 1;
      }
      FoundOrNone(limits, idSet, from, steps);
      id := if nextId in idSet then None else Some(nextId);
    }

    method AllocateId(a: RawAddress) returns (reply: Reply)
      requires Valid()
      modifies this, pairedCache, temporaryCache.Repr
      ensures pairedCache.Repr == old(pairedCache.Repr) && fresh(temporaryCache.Repr - old(temporaryCache.Repr))
      ensures reply == AllocateStep(limits, old(Abs()), a).1
      ensures reply != Hang ==> Valid() && Abs() == AllocateStep(limits, old(Abs()), a).0
    {
      AllocateSound(limits, Abs(), a);
      var hit := GetPaired(a);
      if hit.Some? {
        return Id(hit.value);
      }
      hit := GetTemporary(a);
      if hit.Some? {
        return Id(hit.value);
      }
      assert Abs() == old(Abs());
      reply := AllocateNew(a);
    }

    method AllocateNew(a: RawAddress) returns (reply: Reply)
      requires Valid()
      modifies this, temporaryCache.Repr
      ensures fresh(temporaryCache.Repr - old(temporaryCache.Repr))
      ensures reply == if AllUsed(limits, old(idSet)) then Hang else Id(NextFree(limits, old(idSet), old(nextId), 0))
      ensures reply.Id? ==> Separate() && Abs() == Assigned(limits, old(Abs()), a, reply.id)
    {
      var id := FindFreeId();
      if id == None {
        return Hang;
      }
      AssignId(a, id.value);
      return Id(id.value);
    }

    /** The end of AllocateId: a device not cached yet is given a free id. */
    method AssignId(a: RawAddress, id: int)
      requires limits.Roomy() && Separate()
      modifies this, temporaryCache.Repr
      ensures fresh(temporaryCache.Repr - old(temporaryCache.Repr))
      ensures Separate()
      ensures Abs() == Assigned(limits, old(Abs()), a, id)
    {
      var next := id + 1;
      var ids := idSet + {id};
      var evicted := PutTemporary(a, id);
      if evicted.Some? {
        ids := ids - {evicted.value.value};
      }
      if next > limits.maxId {
        next := limits.minId;
      }
      Record(ids, next, store);
    }

    /** Drops an id from use and calls the forget callback, which is set, and succeeds or not. */
    method ForgetDevicePostprocess(a: RawAddress, id: int, forgetOk: bool)
      requires Separate() && callbacksSet
      modifies this`idSet, this`nextId, this`store
      ensures Separate()
      ensures Abs() == old(Abs()).(ids := old(idSet) - {id}, store := if forgetOk then old(store) - {a} else old(store))
    {
      Record(idSet - {id}, nextId, if forgetOk then store - {a} else store);
    }

    /** Before the first Init the save callback is empty, and calling it ends the process. */
    method SaveDevice(a: RawAddress, saveOk: bool, forgetOk: bool) returns (reply: Reply)
      requires Valid()
      modifies this, pairedCache.Repr, temporaryCache
      ensures temporaryCache.Repr == old(temporaryCache.Repr) && fresh(pairedCache.Repr - old(pairedCache.Repr))
      ensures reply == SaveStep(limits, old(Abs()), a, saveOk, forgetOk).1
      ensures reply != Fatal ==> Valid() && Abs() == SaveStep(limits, old(Abs()), a, saveOk, forgetOk).0
    {
      SaveSound(limits, Abs(), a, saveOk, forgetOk);
      var hit := GetPaired(a);
      if hit.Some? {
        return Done(true);
      }
      assert Abs() == old(Abs());
      reply := SaveUnpaired(a, saveOk, forgetOk);
    }

    /** SaveDevice, once the device is known not to be paired. */
    method SaveUnpaired(a: RawAddress, saveOk: bool, forgetOk: bool) returns (reply: Reply)
      requires Valid() && !Has(Abs().paired, a)
      modifies this, pairedCache.Repr, temporaryCache
      ensures temporaryCache.Repr == old(temporaryCache.Repr) && fresh(pairedCache.Repr - old(pairedCache.Repr))
      ensures Separate() && reply == SaveStep(limits, old(Abs()), a, saveOk, forgetOk).1
      ensures reply != Fatal ==> Abs() == SaveStep(limits, old(Abs()), a, saveOk, forgetOk).0
    {
      ghost var temp := Abs().temp;
      var hit := GetTemporary(a);
      if hit == None {
        return Done(false);
      }
      RemoveTemporary(a, temp);
      reply := MoveToPaired(a, hit.value, saveOk, forgetOk);
    }

    /** The end of SaveDevice: a device just taken out of the temporary cache. */
    method MoveToPaired(a: RawAddress, id: int, saveOk: bool, forgetOk: bool) returns (reply: Reply)
      requires limits.Roomy() && Separate() && (!callbacksSet ==> pairedCache.contents == [])
      modifies this, pairedCache.Repr
      ensures fresh(pairedCache.Repr - old(pairedCache.Repr))
      ensures Separate() && reply == (if old(callbacksSet) then Done(saveOk) else Fatal)
      ensures old(callbacksSet) ==> Abs() == Moved(limits, old(Abs()), a, id, saveOk, forgetOk)
    {
      var evicted := PutPaired(a, id);
      if evicted.Some? {
        ForgetDevicePostprocess(evicted.value.key, evicted.value.value, forgetOk);
      }
      if !callbacksSet {
        return Fatal;
      }
      if saveOk {
        Record(idSet, nextId, store[a := id]);
      }
      return Done(saveOk);
    }

    method ForgetDevice(a: RawAddress, forgetOk: bool)
      requires Valid()
      modifies this, pairedCache
      ensures pairedCache.Repr == old(pairedCache.Repr)
      ensures Valid()
      ensures Abs() == ForgetStep(old(Abs()), a, forgetOk).0
    {
      ghost var s := Abs();
      ForgetSound(limits, s, a, forgetOk);
      var hit := GetPaired(a);
      if hit == None {
        return;
      }
      RemovePaired(a, s.paired);
      ForgetDevicePostprocess(a, hit.value, forgetOk);
    }
  }

  /** Removing a device right after a hit is removing it from the list as it was before. */
  lemma {:induction false} RemoveTouched(l: Devices, a: RawAddress)
    requires Distinct(l) && Has(l, a)
    ensures Has(Touch(l, a), a) && Without(Touch(l, a), a) == Without(l, a)
  {
    TouchFacts(l, a);
    assert Touch(l, a)[1..] == Without(l, a);
  }

  /**
   * Init's loop: puts the devices into the cache, and stops, fatally, at the first id out of
   * range. It works on copies of the id set, the cursor and the store, which Init writes back.
   * Before the first Init the cache is empty, so there is no eviction while no callback is set.
   */
  method LoadAll(limits: Limits, cache: Lru.LruCache<RawAddress, int>, order: Devices, refused: set<RawAddress>,
                 idSet: set<int>, store: map<RawAddress, int>, ghost s: State)
    returns (ok: bool, ids: set<int>, nextId: int, saved: map<RawAddress, int>)
    requires limits.Roomy() && cache.Valid() && cache.capacity == limits.pairedCap
    requires cache.contents == s.paired && idSet == s.ids && store == s.store
    requires |order| <= limits.pairedCap && (s.callbacks || s.paired == [])
    modifies cache.Repr
    ensures cache.Valid() && fresh(cache.Repr - old(cache.Repr))
    ensures ok == AllInRange(limits, order)
    ensures ok ==>
      var t := Loaded(limits, s, order, refused);
      cache.contents == t.paired && ids == t.ids && nextId == t.next && saved == t.store
  {
    ids, nextId, saved := idSet, limits.minId, store;
    ghost var t := LoadedTurns(limits, s, order, refused, 0);
    var i := 0;
    while i < |order| && !(order[i].value < limits.minId || order[i].value > limits.maxId)
      invariant 0 <= i <= |order| && InRangeUpTo(limits, order, i)
      invariant cache.Valid() && fresh(cache.Repr - old(cache.Repr))
      invariant t == LoadedTurns(limits, s, order, refused, i)
      invariant cache.contents == t.paired && ids == t.ids && nextId == t.next && saved == t.store
      invariant s.callbacks || |cache.contents| <= i
    {
      var next := i + 1;
      TurnsNext(limits, s, order, refused, i, next);
      RangeNext(limits, order, i, next);
      ids, nextId, saved := LoadTurn(limits, cache, order[i], refused, ids, nextId, saved, s.callbacks, t);
      t := LoadedTurns(limits, s, order, refused, next);
      i := next;
    }
    AllTurns(limits, s, order, refused, i);
    ok := i == |order|;
  }

  /** One turn; the forget callback is called for an evicted device, and is set. */
  method LoadTurn(limits: Limits, cache: Lru.LruCache<RawAddress, int>, p: Entry<RawAddress, int>, refused: set<RawAddress>,
                  ids: set<int>, nextId: int, saved: map<RawAddress, int>, ghost callbacksSet: bool, ghost t: State)
    returns (ids': set<int>, nextId': int, saved': map<RawAddress, int>)
    requires limits.Roomy() && cache.Valid() && cache.capacity == limits.pairedCap
    requires cache.contents == t.paired && ids == t.ids && nextId == t.next && saved == t.store
    requires callbacksSet || |cache.contents| < limits.pairedCap
    modifies cache.Repr
    ensures cache.Valid() && fresh(cache.Repr - old(cache.Repr)) && |cache.contents| <= old(|cache.contents|) + 1
    ensures var u := LoadOne(limits, t, p, refused);
      cache.contents == u.paired && ids' == u.ids && nextId' == u.next && saved' == u.store
  {
    ids', saved' := ids, saved;
    var evicted := cache.Put(p.key, p.value);
    if evicted.Some? {
      assert callbacksSet;
      ids' := ids' - {evicted.value.value};
      saved' := if evicted.value.key !in refused then saved' - {evicted.value.key} else saved';
    }
    ids' := ids' + {p.value};
    nextId' := if nextId < p.value + 1 then p.value + 1 else nextId;
  }

  /** The state after n turns of Init's loop. */
  function LoadedTurns(c: Limits, s: State, order: Devices, refused: set<RawAddress>, n: nat): State
    requires c.Roomy() && n <= |order|
  {
    if n == 0 then s.(next := c.minId)
    else LoadOne(c, LoadedTurns(c, s, order, refused, n - 1), order[n - 1], refused)
  }

  lemma {:induction false} TurnsAreLoaded(c: Limits, s: State, order: Devices, refused: set<RawAddress>, n: nat)
    requires c.Roomy() && n <= |order|
    ensures LoadedTurns(c, s, order, refused, n) == Loaded(c, s, order[..n], refused)
  {
    if n > 0 {
      TurnsAreLoaded(c, s, order, refused, n - 1);
      assert order[..n][..n - 1] == order[..n - 1];
    }
  }

  predicate InRangeUpTo(c: Limits, l: Devices, i: nat)
    requires i <= |l|
  {
    i == 0 || (InRangeUpTo(c, l, i - 1) && c.InRange(l[i - 1].value))
  }

  lemma {:induction false} RangeNext(c: Limits, l: Devices, i: nat, next: nat)
    requires i < |l| && next == i + 1 && InRangeUpTo(c, l, i) && c.InRange(l[i].value)
    ensures InRangeUpTo(c, l, next)
  {
  }

  lemma {:induction false} RangeUpTo(c: Limits, l: Devices, i: nat)
    requires i <= |l| && InRangeUpTo(c, l, i)
    ensures forall j :: 0 <= j < i ==> c.InRange(l[j].value)
  {
    if i > 0 { RangeUpTo(c, l, i - 1); }
  }

  /** The loop gets to the end exactly if all ids are in range. */
  lemma {:induction false} AllTurns(c: Limits, s: State, order: Devices, refused: set<RawAddress>, i: nat)
    requires c.Roomy() && i <= |order| && InRangeUpTo(c, order, i) && (i < |order| ==> !c.InRange(order[i].value))
    ensures i == |order| <==> AllInRange(c, order)
    ensures i == |order| ==> LoadedTurns(c, s, order, refused, i) == Loaded(c, s, order, refused)
  {
    RangeUpTo(c, order, i);
    TurnsAreLoaded(c, s, order, refused, i);
    assert order[..|order|] == order;
  }

  lemma {:induction false} TurnsNext(c: Limits, s: State, order: Devices, refused: set<RawAddress>, i: nat, next: nat)
    requires c.Roomy() && i < |order| && next == i + 1
    ensures LoadedTurns(c, s, order, refused, next) == LoadOne(c, LoadedTurns(c, s, order, refused, i), order[i], refused)
  {
  }
}
