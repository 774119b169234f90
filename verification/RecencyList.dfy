/**
 * The value an LRU cache stands for: its entries, most recently touched first.
 * Every operation of `LruCache` is specified by one of the functions here.
 */
module RecencyList {
  import opened Common

  datatype Entry<+K, +V> = Entry(key: K, value: V)

  /** No key occurs twice. */
  ghost predicate Distinct<K, V>(s: seq<Entry<K, V>>) {
    forall i, j :: 0 <= i < j < |s| ==> s[i].key != s[j].key
  }

  /** Position of the first entry with key `k`, or |s|. */
  function IndexOf<K(==), V>(s: seq<Entry<K, V>>, k: K): (i: nat)
    ensures i <= |s|
    ensures i < |s| ==> s[i].key == k
    ensures forall j :: 0 <= j < i ==> s[j].key != k
  {
    if s == [] then 0 else if s[0].key == k then 0 else 1 + IndexOf(s[1..], k)
  }

  function Lookup<K(==), V>(s: seq<Entry<K, V>>, k: K): Option<V> {
    var i := IndexOf(s, k);
    if i < |s| then Some(s[i].value) else None
  }

  predicate Has<K(==), V>(s: seq<Entry<K, V>>, k: K) {
    Lookup(s, k).Some?
  }

  function Without<K(==), V>(s: seq<Entry<K, V>>, k: K): seq<Entry<K, V>> {
    var i := IndexOf(s, k);
    if i < |s| then s[..i] + s[i + 1..] else s
  }

  /** A lookup moves the key it hits to the front. */
  function Touch<K(==), V>(s: seq<Entry<K, V>>, k: K): seq<Entry<K, V>> {
    var i := IndexOf(s, k);
    if i < |s| then [s[i]] + Without(s, k) else s
  }

  /** What `Put` pushes out: the tail, if the key is new and the list is full. */
  function Evicted<K(==), V>(s: seq<Entry<K, V>>, capacity: nat, k: K): Option<Entry<K, V>>
    requires capacity > 0
  {
    if !Has(s, k) && |s| == capacity then Some(s[|s| - 1]) else None
  }

  function Put<K(==), V>(s: seq<Entry<K, V>>, capacity: nat, k: K, v: V): seq<Entry<K, V>>
    requires capacity > 0
  {
    if Has(s, k) then [Entry(k, v)] + Without(s, k)
    else if |s| == capacity then [Entry(k, v)] + s[..|s| - 1]
    else [Entry(k, v)] + s
  }

  // ---------- The list keeps its keys distinct and its size bounded ----------

  lemma {:induction false} IndexOfUnique<K, V>(s: seq<Entry<K, V>>, k: K, i: nat)
    requires Distinct(s)
    requires i < |s| && s[i].key == k
    ensures IndexOf(s, k) == i
  {
  }

  lemma {:induction false} WithoutFacts<K, V>(s: seq<Entry<K, V>>, k: K)
    requires Distinct(s)
    ensures Distinct(Without(s, k)) && !Has(Without(s, k), k)
    ensures |Without(s, k)| == |s| - (if Has(s, k) then 1 else 0)
    ensures forall x :: x != k ==> Lookup(Without(s, k), x) == Lookup(s, x)
  {
    var i := IndexOf(s, k);
    var r := Without(s, k);
    forall x | x != k ensures Lookup(r, x) == Lookup(s, x) {
      if i < |s| {
        var j := IndexOf(s, x);
        if j < |s| {
          assert r[if j < i then j else j - 1] == s[j];
          IndexOfUnique(r, x, if j < i then j else j - 1);
        }
      }
    }
  }

  lemma {:induction false} TouchFacts<K, V>(s: seq<Entry<K, V>>, k: K)
    requires Distinct(s)
    ensures Distinct(Touch(s, k)) && |Touch(s, k)| == |s|
    ensures forall x :: Lookup(Touch(s, k), x) == Lookup(s, x)
    ensures Has(s, k) ==> Touch(s, k)[0].key == k && Touch(s, k)[1..] == Without(s, k)
  {
    if Has(s, k) {
      var i := IndexOf(s, k);
      assert Touch(s, k) == [s[i]] + Without(s, k);
      WithoutFacts(s, k);
      ConsFacts(s[i], Without(s, k));
    }
  }

  /** Looking a key up in a list with one more entry in front. */
  lemma {:induction false} ConsFacts<K, V>(e: Entry<K, V>, s: seq<Entry<K, V>>)
    ensures Lookup([e] + s, e.key) == Some(e.value)
    ensures forall x :: x != e.key ==> Lookup([e] + s, x) == Lookup(s, x)
    ensures Distinct(s) && !Has(s, e.key) ==> Distinct([e] + s)
  {
    var r := [e] + s;
    assert r[1..] == s;
  }

  /** Dropping the last entry forgets its key and no other. */
  lemma {:induction false} DropLastFacts<K, V>(s: seq<Entry<K, V>>)
    requires Distinct(s) && |s| > 0
    ensures Distinct(s[..|s| - 1]) && !Has(s[..|s| - 1], s[|s| - 1].key)
    ensures forall x :: x != s[|s| - 1].key ==> Lookup(s[..|s| - 1], x) == Lookup(s, x)
  {
    var r := s[..|s| - 1];
    forall x | x != s[|s| - 1].key ensures Lookup(r, x) == Lookup(s, x) {
      if Has(s, x) { IndexOfUnique(r, x, IndexOf(s, x)); }
    }
  }

  /** What a Put does to every key: its own is bound, the evicted one is gone, the rest stay. */
  lemma {:induction false} PutFacts<K, V>(s: seq<Entry<K, V>>, capacity: nat, k: K, v: V)
    requires Distinct(s) && |s| <= capacity && capacity > 0
    ensures var r := Put(s, capacity, k, v); var ev := Evicted(s, capacity, k);
      && Distinct(r) && |r| <= capacity
      && Lookup(r, k) == Some(v)
      && (ev.Some? ==> ev.value.key != k && Lookup(s, ev.value.key) == Some(ev.value.value)
                       && Lookup(r, ev.value.key) == None)
      && (forall x :: x != k && !(ev.Some? && x == ev.value.key) ==> Lookup(r, x) == Lookup(s, x))
  {
    var e := Entry(k, v);
    if Has(s, k) {
      WithoutFacts(s, k);
      ConsFacts(e, Without(s, k));
    } else if |s| == capacity {
      DropLastFacts(s);
      var d := s[..|s| - 1];
      ConsFacts(e, d);
      IndexOfUnique(s, s[|s| - 1].key, |s| - 1);
    } else {
      ConsFacts(e, s);
    }
  }
}

/**
 * What "least recently used" means over whole runs: the cached keys are the
 * `capacity` most recently touched ones, and each holds the value put last.
 */
module RecencyRuns {
  import opened Common
  import opened RecencyList

  datatype Op<K, V> = PutOp(key: K, value: V) | GetOp(key: K)

  function Apply<K(==), V>(s: seq<Entry<K, V>>, capacity: nat, op: Op<K, V>): seq<Entry<K, V>>
    requires capacity > 0
  {
    match op
    case PutOp(k, v) => Put(s, capacity, k, v)
    case GetOp(k) => Touch(s, k)
  }

  function Run<K(==), V>(ops: seq<Op<K, V>>, capacity: nat): seq<Entry<K, V>>
    requires capacity > 0
  {
    if ops == [] then [] else Apply(Run(ops[..|ops| - 1], capacity), capacity, ops[|ops| - 1])
  }

  /** A Put touches its key, and so does a Get that hits. */
  function TouchedBy<K(==), V>(s: seq<Entry<K, V>>, op: Op<K, V>): seq<K> {
    if op.PutOp? || Has(s, op.key) then [op.key] else []
  }

  /** The keys touched in a run, oldest first. */
  function Touches<K(==), V>(ops: seq<Op<K, V>>, capacity: nat): seq<K>
    requires capacity > 0
  {
    if ops == [] then []
    else
      var before := ops[..|ops| - 1];
      Touches(before, capacity) + TouchedBy(Run(before, capacity), ops[|ops| - 1])
  }

  function Keys<K, V>(s: seq<Entry<K, V>>): (ks: seq<K>)
    ensures |ks| == |s|
    ensures forall i :: 0 <= i < |s| ==> ks[i] == s[i].key
  {
    seq(|s|, i requires 0 <= i < |s| => s[i].key)
  }

  // ---------- Reference: keys ordered by the time of their last touch ----------

  /** Position of the last touch of `k`, or -1. */
  function LastTouch<K(==)>(t: seq<K>, k: K): (i: int)
    ensures -1 <= i < |t|
    ensures i >= 0 ==> t[i] == k
  {
    if t == [] then -1 else if t[|t| - 1] == k then |t| - 1 else LastTouch(t[..|t| - 1], k)
  }

  /** It is the last: no later touch is of `k`. */
  lemma {:induction false} NoneLater<K>(t: seq<K>, k: K, j: nat)
    requires LastTouch(t, k) < j < |t|
    ensures t[j] != k
  {
    if j < |t| - 1 { NoneLater(t[..|t| - 1], k, j); }
  }

  /** Last touches strictly decrease along `ks`: newest first, no key twice, all of them touched. */
  ghost predicate NewestFirst<K>(ks: seq<K>, t: seq<K>) {
    && (forall i :: 0 <= i < |ks| ==> LastTouch(t, ks[i]) >= 0)
    && (forall i, j :: 0 <= i < j < |ks| ==> LastTouch(t, ks[i]) > LastTouch(t, ks[j]))
  }

  /** `k` was last touched before every member of `ks`. */
  ghost predicate OlderThanAll<K>(k: K, ks: seq<K>, t: seq<K>) {
    forall i :: 0 <= i < |ks| ==> LastTouch(t, k) < LastTouch(t, ks[i])
  }

  /**
   * `ks` are the `capacity` most recently touched distinct keys, newest first:
   * a touched key is missing only from a full list, and is older than all of it.
   */
  ghost predicate MostRecent<K(!new)>(ks: seq<K>, t: seq<K>, capacity: nat) {
    && |ks| <= capacity
    && NewestFirst(ks, t)
    && (forall k :: k in t && k !in ks ==> |ks| == capacity && OlderThanAll(k, ks, t))
  }

  lemma {:induction false} LastTouchSnoc<K>(t: seq<K>, x: K, k: K)
    ensures LastTouch(t + [x], k) == if x == k then |t| else LastTouch(t, k)
  {
    assert (t + [x])[..|t|] == t;
  }

  function DropAt<K>(ks: seq<K>, i: nat): seq<K> {
    if i < |ks| then ks[..i] + ks[i + 1..] else ks
  }

  /** Taking a member out keeps the order. */
  lemma {:induction false} NewestFirstDropAt<K>(ks: seq<K>, t: seq<K>, i: nat)
    requires NewestFirst(ks, t)
    ensures NewestFirst(DropAt(ks, i), t)
  {
    var r := DropAt(ks, i);
    forall m | 0 <= m < |r| ensures r[m] == ks[if m < i then m else m + 1] { }
  }

  /** A touched key goes in front of those it is not among. */
  lemma {:induction false} NewestFirstTouch<K>(ks: seq<K>, t: seq<K>, x: K)
    requires NewestFirst(ks, t) && x !in ks
    ensures NewestFirst([x] + ks, t + [x])
  {
    var r := [x] + ks;
    LastTouchSnoc(t, x, x);
    forall m | 0 <= m < |ks| ensures r[m + 1] == ks[m] && LastTouch(t + [x], r[m + 1]) == LastTouch(t, ks[m]) {
      LastTouchSnoc(t, x, ks[m]);
    }
    forall i, j | 0 <= i < j < |r| ensures LastTouch(t + [x], r[i]) > LastTouch(t + [x], r[j]) {
      assert r[j] == ks[j - 1];
      if i > 0 { assert r[i] == ks[i - 1]; }
    }
  }

  lemma {:induction false} OlderTouch<K>(k: K, ks: seq<K>, t: seq<K>, x: K)
    requires k != x && OlderThanAll(k, ks, t)
    ensures OlderThanAll(k, [x] + ks, t + [x])
  {
    var r := [x] + ks;
    LastTouchSnoc(t, x, k);
    forall m | 0 <= m < |r| ensures LastTouch(t + [x], k) < LastTouch(t + [x], r[m]) {
      LastTouchSnoc(t, x, r[m]);
    }
  }

  /** Touching `x` puts it in front, after taking out its old place or, if the list is full, the tail. */
  lemma {:induction false} MostRecentTouch<K(!new)>(ks: seq<K>, t: seq<K>, capacity: nat, x: K, i: nat)
    requires capacity > 0 && MostRecent(ks, t, capacity)
    requires if x in ks then i < |ks| && ks[i] == x
             else i == if |ks| == capacity then |ks| - 1 else |ks|
    ensures MostRecent([x] + DropAt(ks, i), t + [x], capacity)
  {
    var rest := DropAt(ks, i);
    forall m | 0 <= m < |rest| ensures rest[m] == ks[if m < i then m else m + 1] && rest[m] != x { }
    forall m | 0 <= m < |ks| && m != i ensures ks[m] in rest { assert rest[if m < i then m else m - 1] == ks[m]; }
    NewestFirstDropAt(ks, t, i);
    NewestFirstTouch(rest, t, x);
    forall k | k in t + [x] && k !in [x] + rest
      ensures |rest| + 1 == capacity && OlderThanAll(k, [x] + rest, t + [x])
    {
      assert k != x by { assert ([x] + rest)[0] == x; }
      assert k !in rest;
      assert k in ks ==> k == ks[i];
      OlderTouch(k, rest, t, x);
    }
  }

  lemma {:induction false} PutOrTouchDistinct<K, V>(s: seq<Entry<K, V>>, capacity: nat, op: Op<K, V>)
    requires Distinct(s) && |s| <= capacity && capacity > 0
    ensures Distinct(Apply(s, capacity, op)) && |Apply(s, capacity, op)| <= capacity
    ensures forall x :: Lookup(Apply(s, capacity, op), x).Some? ==>
              Lookup(Apply(s, capacity, op), x)
              == if op.PutOp? && x == op.key then Some(op.value) else Lookup(s, x)
  {
    TouchFacts(s, op.key);
    if op.PutOp? { PutFacts(s, capacity, op.key, op.value); }
  }

  /** Where a touch of `k` takes an entry out: its own place, or the tail of a full list. */
  function TouchedAt<K(==), V>(s: seq<Entry<K, V>>, capacity: nat, k: K): nat
    requires capacity > 0
  {
    if Has(s, k) then IndexOf(s, k) else if |s| == capacity then |s| - 1 else |s|
  }

  lemma {:induction false} KeysCons<K, V>(e: Entry<K, V>, s: seq<Entry<K, V>>)
    ensures Keys([e] + s) == [e.key] + Keys(s)
  {
  }

  lemma {:induction false} KeysDropAt<K, V>(s: seq<Entry<K, V>>, i: nat)
    requires i < |s|
    ensures Keys(s[..i] + s[i + 1..]) == DropAt(Keys(s), i)
  {
  }

  /** A touch is the key in front of the list without that place. */
  lemma {:induction false} ApplyShape<K, V>(s: seq<Entry<K, V>>, capacity: nat, op: Op<K, V>) returns (e: Entry<K, V>)
    requires capacity > 0
    requires op.PutOp? || Has(s, op.key)
    ensures e.key == op.key
    ensures var at := TouchedAt(s, capacity, op.key);
      Apply(s, capacity, op) == [e] + (if at < |s| then s[..at] + s[at + 1..] else s)
  {
    if op.PutOp? {
      e := Entry(op.key, op.value);
      PutShape(s, capacity, op.key, op.value);
    } else {
      e := s[IndexOf(s, op.key)];
    }
  }

  lemma {:induction false} PutShape<K, V>(s: seq<Entry<K, V>>, capacity: nat, k: K, v: V)
    requires capacity > 0
    ensures var at := TouchedAt(s, capacity, k);
      Put(s, capacity, k, v) == [Entry(k, v)] + (if at < |s| then s[..at] + s[at + 1..] else s)
  {
    if !Has(s, k) && |s| == capacity { LastDropped(s); }
  }

  lemma {:induction false} LastDropped<K, V>(s: seq<Entry<K, V>>)
    ensures s != [] ==> s[..|s| - 1] + s[|s| - 1 + 1..] == s[..|s| - 1]
  {
  }

  lemma {:induction false} KeysOfApply<K, V>(s: seq<Entry<K, V>>, capacity: nat, op: Op<K, V>)
    requires capacity > 0
    requires op.PutOp? || Has(s, op.key)
    ensures Keys(Apply(s, capacity, op)) == [op.key] + DropAt(Keys(s), TouchedAt(s, capacity, op.key))
  {
    var at := TouchedAt(s, capacity, op.key);
    var e := ApplyShape(s, capacity, op);
    if at < |s| { KeysDropAt(s, at); }
    KeysCons(e, if at < |s| then s[..at] + s[at + 1..] else s);
  }

  lemma {:induction false} HasIsKey<K, V>(s: seq<Entry<K, V>>, k: K)
    ensures k in Keys(s) <==> Has(s, k)
  {
    if Has(s, k) { assert Keys(s)[IndexOf(s, k)] == k; }
  }

  /** The invariant of a run: `t` is what has been touched so far. */
  ghost predicate Tracks<K(!new), V>(s: seq<Entry<K, V>>, t: seq<K>, capacity: nat) {
    Distinct(s) && |s| <= capacity && MostRecent(Keys(s), t, capacity)
  }

  lemma {:induction false} ApplyTracks<K(!new), V>(s: seq<Entry<K, V>>, t: seq<K>, capacity: nat, op: Op<K, V>)
    requires capacity > 0 && Tracks(s, t, capacity)
    ensures Tracks(Apply(s, capacity, op), t + TouchedBy(s, op), capacity)
  {
    PutOrTouchDistinct(s, capacity, op);
    if op.PutOp? || Has(s, op.key) {
      KeysOfApply(s, capacity, op);
      HasIsKey(s, op.key);
      MostRecentTouch(Keys(s), t, capacity, op.key, TouchedAt(s, capacity, op.key));
    } else {
      assert t + TouchedBy(s, op) == t;
    }
  }

  /** The theorem: after any run of Puts and Gets the cache holds the most recently touched keys, in order. */
  lemma {:induction false} HoldsMostRecent<K(!new), V>(ops: seq<Op<K, V>>, capacity: nat)
    requires capacity > 0
    ensures Tracks(Run(ops, capacity), Touches(ops, capacity), capacity)
  {
    if ops != [] {
      var before := ops[..|ops| - 1];
      HoldsMostRecent(before, capacity);
      ApplyTracks(Run(before, capacity), Touches(before, capacity), capacity, ops[|ops| - 1]);
    }
  }

  /** The value last put under `k`, if any. */
  function LastPut<K(==), V>(ops: seq<Op<K, V>>, k: K): Option<V> {
    if ops == [] then None
    else
      var op := ops[|ops| - 1];
      if op.PutOp? && op.key == k then Some(op.value) else LastPut(ops[..|ops| - 1], k)
  }

  /** A hit after any run returns the value last put under that key. */
  lemma {:induction false} HitReturnsLastPut<K(!new), V>(ops: seq<Op<K, V>>, capacity: nat, k: K)
    requires capacity > 0
    requires Has(Run(ops, capacity), k)
    ensures Lookup(Run(ops, capacity), k) == LastPut(ops, k)
  {
    var before := ops[..|ops| - 1];
    HoldsMostRecent(before, capacity);
    PutOrTouchDistinct(Run(before, capacity), capacity, ops[|ops| - 1]);
    if !(ops[|ops| - 1].PutOp? && ops[|ops| - 1].key == k) {
      HitReturnsLastPut(before, capacity, k);
    }
  }
}
