/**
 * The metric id allocator as a state machine: a cyclic id allocator over two LRU
 * caches, with the persistent store behind the save and forget callbacks.
 */
module MetricIds {
  import opened Common
  import opened RecencyList
  import opened Addresses

  type Devices = seq<Entry<RawAddress, int>>

  datatype Limits = Limits(minId: int, maxId: int, pairedCap: nat, tempCap: nat) {
    /** The static assertion of the source: more ids than cache places. */
    ghost predicate Roomy() {
      0 < pairedCap && 0 < tempCap && pairedCap + tempCap < maxId - minId
    }

    predicate InRange(id: int) { minId <= id <= maxId }

    function Size(): int { maxId - minId + 1 }

    /** The id `j` places after `id` in cyclic order, for j up to the number of ids. */
    function Ahead(id: int, j: nat): int {
      if id + j <= maxId then id + j else id + j - Size()
    }
  }

  const FLUORIDE := Limits(1, 65534, 65000, 200)

  datatype State = State(
    paired: Devices, temp: Devices, ids: set<int>, next: int,
    initialized: bool,
    callbacks: bool,                // set by the first Init, and kept by Close
    store: map<RawAddress, int>)

  /**
   * What a call answers. Fatal is a LOG(FATAL) or a call of a callback never set; Hang is a
   * search for a free id that goes round for ever.
   */
  datatype Reply = Id(id: int) | Done(ok: bool) | Void | Fatal | Hang

  datatype Event =
    | Init(order: Devices, refused: set<RawAddress>)       // the given map, in its iteration order, and
                                                           // the devices whose forget callback will fail
    | Close
    | Allocate(address: RawAddress)
    | Save(address: RawAddress, saveOk: bool, forgetOk: bool)   // with what the callbacks will return
    | Forget(address: RawAddress, forgetOk: bool)

  // ---------- The operations ----------

  /** The search: the first id not in use, `j` or more places after `from`. */
  function NextFree(c: Limits, ids: set<int>, from: int, j: nat): int
    decreases c.Size() - j
  {
    if j >= c.Size() || c.Ahead(from, j) !in ids then c.Ahead(from, j)
    else NextFree(c, ids, from, j + 1)
  }

  predicate AllUsed(c: Limits, ids: set<int>) {
    forall id :: c.minId <= id <= c.maxId ==> id in ids
  }

  function Wrap(c: Limits, id: int): int {
    if id > c.maxId then c.minId else id
  }

  function DropId(ids: set<int>, evicted: Option<Entry<RawAddress, int>>): set<int> {
    if evicted.Some? then ids - {evicted.value.value} else ids
  }

  /** The store after the forget callback was called for an evicted device. */
  function Forgotten(store: map<RawAddress, int>, evicted: Option<Entry<RawAddress, int>>, ok: bool): map<RawAddress, int> {
    if evicted.Some? && ok then store - {evicted.value.key} else store
  }

  /** A device not cached yet is given the id `id`. */
  function Assigned(c: Limits, s: State, a: RawAddress, id: int): State
    requires c.Roomy()
  {
    var evicted := Evicted(s.temp, c.tempCap, a);
    s.(temp := Put(s.temp, c.tempCap, a, id), ids := DropId(s.ids + {id}, evicted), next := Wrap(c, id + 1))
  }

  function AllocateStep(c: Limits, s: State, a: RawAddress): (State, Reply)
    requires c.Roomy()
  {
    if Has(s.paired, a) then (s.(paired := Touch(s.paired, a)), Id(Lookup(s.paired, a).value))
    else if Has(s.temp, a) then (s.(temp := Touch(s.temp, a)), Id(Lookup(s.temp, a).value))
    else if AllUsed(c, s.ids) then (s, Hang)
    else
      var id := NextFree(c, s.ids, s.next, 0);
      (Assigned(c, s, a, id), Id(id))
  }

  /** A device just taken out of the temporary cache is paired. */
  function Moved(c: Limits, s: State, a: RawAddress, id: int, saveOk: bool, forgetOk: bool): State
    requires c.Roomy()
  {
    var evicted := Evicted(s.paired, c.pairedCap, a);
    var store := Forgotten(s.store, evicted, forgetOk);
    s.(paired := Put(s.paired, c.pairedCap, a, id),
       ids := DropId(s.ids, evicted),
       store := if saveOk then store[a := id] else store)
  }

  function SaveStep(c: Limits, s: State, a: RawAddress, saveOk: bool, forgetOk: bool): (State, Reply)
    requires c.Roomy()
  {
    if Has(s.paired, a) then (s.(paired := Touch(s.paired, a)), Done(true))
    else if !Has(s.temp, a) then (s, Done(false))
    else if !s.callbacks then (s, Fatal)
    else
      (Moved(c, s.(temp := Without(s.temp, a)), a, Lookup(s.temp, a).value, saveOk, forgetOk), Done(saveOk))
  }

  function ForgetStep(s: State, a: RawAddress, forgetOk: bool): (State, Reply) {
    if !Has(s.paired, a) then (s, Void)
    else
      (s.(paired := Without(s.paired, a),
          ids := s.ids - {Lookup(s.paired, a).value},
          store := if forgetOk then s.store - {a} else s.store),
       Void)
  }

  function CloseStep(s: State): (State, Reply) {
    if !s.initialized then (s, Done(false))
    else (s.(paired := [], temp := [], ids := {}, initialized := false), Done(true))
  }

  /** One turn of Init's loop; an eviction frees its id before the new one is entered. */
  function LoadOne(c: Limits, s: State, e: Entry<RawAddress, int>, refused: set<RawAddress>): State
    requires c.Roomy()
  {
    var evicted := Evicted(s.paired, c.pairedCap, e.key);
    s.(paired := Put(s.paired, c.pairedCap, e.key, e.value),
       ids := DropId(s.ids, evicted) + {e.value},
       next := Max(s.next, e.value + 1),
       store := Forgotten(s.store, evicted, evicted.Some? && evicted.value.key !in refused))
  }

  /** Init's loop, over whatever the paired cache holds already. */
  function Loaded(c: Limits, s: State, l: Devices, refused: set<RawAddress>): State
    requires c.Roomy()
  {
    if l == [] then s.(next := c.minId)
    else LoadOne(c, Loaded(c, s, l[..|l| - 1], refused), l[|l| - 1], refused)
  }

  function Reversed(l: Devices): (r: Devices)
    ensures |r| == |l|
    ensures forall i :: 0 <= i < |l| ==> r[i] == l[|l| - 1 - i]
  {
    seq(|l|, i requires 0 <= i < |l| => l[|l| - 1 - i])
  }

  function IdsIn(l: Devices): set<int> {
    set i | 0 <= i < |l| :: l[i].value
  }

  /** One past the largest id, and at least `id`. */
  function PastAll(id: int, l: Devices): (m: int)
    ensures m >= id && forall i :: 0 <= i < |l| ==> m > l[i].value
    ensures m == id || exists i :: 0 <= i < |l| && m == l[i].value + 1
  {
    if l == [] then id
    else
      var n := |l| - 1;
      Max(PastAll(id, l[..n]), l[n].value + 1)
  }

  predicate AllInRange(c: Limits, l: Devices) {
    forall i :: 0 <= i < |l| ==> c.InRange(l[i].value)
  }

  function InitStep(c: Limits, s: State, order: Devices, refused: set<RawAddress>): (State, Reply)
    requires c.Roomy()
  {
    if s.initialized then (s, Done(false))
    else if |order| > c.pairedCap || !AllInRange(c, order) then (s, Fatal)
    else
      var t := Loaded(c, s, order, refused);
      (t.(next := Wrap(c, t.next), initialized := true, callbacks := true), Done(true))
  }

  function Step(c: Limits, s: State, e: Event): (State, Reply)
    requires c.Roomy()
  {
    match e
    case Init(order, refused) => InitStep(c, s, order, refused)
    case Close => CloseStep(s)
    case Allocate(a) => AllocateStep(c, s, a)
    case Save(a, saveOk, forgetOk) => SaveStep(c, s, a, saveOk, forgetOk)
    case Forget(a, forgetOk) => ForgetStep(s, a, forgetOk)
  }

  // ---------- What holds in every run, whatever the calls and their order ----------

  /** Caches bounded and free of duplicates, ids in range, and nothing paired before the callbacks are set. */
  ghost predicate Sound(c: Limits, s: State) {
    && c.Roomy()
    && Distinct(s.paired) && |s.paired| <= c.pairedCap && AllInRange(c, s.paired)
    && Distinct(s.temp) && |s.temp| <= c.tempCap && AllInRange(c, s.temp)
    && c.InRange(s.next)
    && (s.initialized ==> s.callbacks)
    && (!s.callbacks ==> s.paired == [])
  }

  /** Every used id is held by some cached device, or is one of the lost ones. */
  ghost predicate Held(s: State, lost: set<int>) {
    s.ids <= IdsIn(s.paired) + IdsIn(s.temp) + lost
  }

  /** The id by which a cached device is known. */
  function IdOf(s: State, a: RawAddress): Option<int> {
    if Has(s.paired, a) then Lookup(s.paired, a) else Lookup(s.temp, a)
  }

  /** The used ids are exactly the cached ones, and no id and no device is cached twice. */
  ghost predicate Exact(s: State) {
    && (forall a :: Lookup(s.paired, a) == None || Lookup(s.temp, a) == None)
    && (forall a, b :: a != b && IdOf(s, a).Some? ==> IdOf(s, a) != IdOf(s, b))
    && (forall a :: IdOf(s, a).Some? ==> IdOf(s, a).value in s.ids)
    && (forall x :: x in s.ids ==> exists a :: IdOf(s, a) == Some(x))
  }

  // ---------- Ids in a list ----------

  lemma {:induction false} FewIds(l: Devices)
    ensures |IdsIn(l)| <= |l|
  {
    if l == [] {
      assert IdsIn(l) == {};
    } else {
      FewIds(l[1..]);
      assert IdsIn(l) == {l[0].value} + IdsIn(l[1..]) by {
        forall x | x in IdsIn(l) ensures x in {l[0].value} + IdsIn(l[1..]) {
          var i :| 0 <= i < |l| && l[i].value == x;
          assert i > 0 ==> l[1..][i - 1] == l[i];
        }
        forall i | 0 <= i < |l| - 1 ensures l[1..][i].value in IdsIn(l) { assert l[1..][i] == l[i + 1]; }
      }
    }
  }

  // ---------- The search ends, at the first free id ----------

  /** All ids from `lo` to `hi`. */
  ghost function Span(lo: int, hi: int): (all: set<int>)
    ensures forall x :: x in all <==> lo <= x <= hi
    ensures lo <= hi + 1 ==> |all| == hi - lo + 1
    decreases hi - lo
  {
    if lo > hi then {} else {lo} + Span(lo + 1, hi)
  }

  lemma {:induction false} SubsetSize(a: set<int>, b: set<int>)
    requires a <= b
    ensures |a| <= |b|
  {
    assert |b - a| + |a| == |b| by { assert (b - a) + a == b; }
  }

  /** Pigeonhole: caches and lost ids together cannot use up the id space. */
  lemma {:induction false} SomeIdFree(c: Limits, s: State, lost: set<int>)
    requires Sound(c, s) && Held(s, lost) && c.pairedCap + c.tempCap + |lost| < c.Size()
    ensures !AllUsed(c, s.ids)
  {
    FewIds(s.paired);
    FewIds(s.temp);
    SubsetSize(s.ids, IdsIn(s.paired) + IdsIn(s.temp) + lost);
    if AllUsed(c, s.ids) { SubsetSize(Span(c.minId, c.maxId), s.ids); }
  }

  /** `id` is the first free id at or after the cursor, in cyclic order. */
  ghost predicate FirstFree(c: Limits, ids: set<int>, from: int, id: int) {
    exists n :: 0 <= n < c.Size() && id == c.Ahead(from, n) && id !in ids
                && forall j :: 0 <= j < n ==> c.Ahead(from, j) in ids
  }

  lemma {:induction false} NextFreeFrom(c: Limits, ids: set<int>, from: int, j: nat, free: nat)
    requires j <= free < c.Size() && c.Ahead(from, free) !in ids
    requires forall i :: 0 <= i < j ==> c.Ahead(from, i) in ids
    ensures FirstFree(c, ids, from, NextFree(c, ids, from, j))
    decreases free - j
  {
    if c.Ahead(from, j) in ids {
      NextFreeFrom(c, ids, from, j + 1, free);
    }
  }

  /** The search ends, and at the first free id, if any id is free. */
  lemma {:induction false} SearchFindsFirstFree(c: Limits, ids: set<int>, from: int)
    requires c.InRange(from) && !AllUsed(c, ids)
    ensures FirstFree(c, ids, from, NextFree(c, ids, from, 0))
    ensures c.InRange(NextFree(c, ids, from, 0)) && NextFree(c, ids, from, 0) !in ids
  {
    var x :| c.minId <= x <= c.maxId && x !in ids;
    var free := if x >= from then x - from else x - from + c.Size();
    assert c.Ahead(from, free) == x;
    NextFreeFrom(c, ids, from, 0, free);
  }

  /** One round of the search finds the first free id, or that there is none. */
  lemma {:induction false} FoundOrNone(c: Limits, ids: set<int>, from: int, steps: nat)
    requires c.InRange(from) && steps <= c.Size()
    requires forall j :: 0 <= j < steps ==> c.Ahead(from, j) in ids
    requires c.Ahead(from, steps) !in ids || steps == c.Size()
    ensures c.Ahead(from, steps) in ids <==> AllUsed(c, ids)
    ensures c.Ahead(from, steps) !in ids ==>
      c.Ahead(from, steps) == NextFree(c, ids, from, 0) && FirstFree(c, ids, from, c.Ahead(from, steps))
  {
    assert steps == c.Size() ==> c.Ahead(from, steps) == from == c.Ahead(from, 0);
    if c.Ahead(from, steps) in ids {
      forall x | c.minId <= x <= c.maxId ensures x in ids {
        assert c.Ahead(from, if x >= from then x - from else x - from + c.Size()) == x;
      }
    } else {
      SkipUsed(c, ids, from, 0, steps);
    }
  }

  lemma {:induction false} SkipUsed(c: Limits, ids: set<int>, from: int, i: nat, steps: nat)
    requires i <= steps < c.Size() && c.Ahead(from, steps) !in ids
    requires forall j :: 0 <= j < steps ==> c.Ahead(from, j) in ids
    ensures NextFree(c, ids, from, i) == c.Ahead(from, steps)
    decreases steps - i
  {
    if i < steps { SkipUsed(c, ids, from, i + 1, steps); }
  }
}
