/** A queue of bounded size that leaks its oldest item when full. */
module LeakyBondedQueue {
  import opened Common

  /** The last n items, or all if there are fewer. */
  function LastN<T>(s: seq<T>, n: nat): seq<T> {
    if |s| <= n then s else s[|s| - n..]
  }

  /** What is kept is a suffix, as long as fits. */
  lemma {:induction false} LastNIsSuffix<T>(s: seq<T>, n: nat)
    ensures |LastN(s, n)| == Min(|s|, n)
    ensures s[..|s| - |LastN(s, n)|] + LastN(s, n) == s
  {
  }

  /** Keeping the last n of what is kept and one more is keeping the last n of everything. */
  lemma {:induction false} LastNSnoc<T>(s: seq<T>, x: T, n: nat)
    requires n > 0
    ensures LastN(LastN(s, n) + [x], n) == LastN(s + [x], n)
  {
  }

  class LeakyBondedQueue<T> {
    const capacity: nat
    var queue: seq<T>

    ghost predicate Valid()
      reads this
    {
      0 < capacity && |queue| <= capacity
    }

    /** With capacity 0 an Enqueue would pop from an empty queue, which is undefined in the source. */
    constructor (capacity: nat)
      requires capacity > 0
      ensures Valid() && this.capacity == capacity && queue == []
    {
      this.capacity := capacity;
      queue := [];
    }

    method Enqueue(item: T)
      requires Valid()
      modifies this
      ensures Valid() && queue == LastN(old(queue) + [item], capacity)
    {
      if |queue| + 1 > capacity {
        queue := queue[1..];
      }
      queue := queue + [item];
    }

    method EnqueueWithPop(item: T) returns (popped: Option<T>)
      requires Valid()
      modifies this
      ensures Valid() && queue == LastN(old(queue) + [item], capacity)
      ensures popped == if old(|queue|) == capacity then Some(old(queue)[0]) else None
    {
      popped := None;
      if |queue| + 1 > capacity {
        popped := Some(queue[0]);
        queue := queue[1..];
      }
      queue := queue + [item];
    }

    /** None on an empty queue, whose front the source uses although its comment promises a null pointer. */
    method Dequeue() returns (item: Option<T>)
      requires Valid()
      modifies this
      ensures Valid()
      ensures item == None <==> old(queue) == []
      ensures old(queue) == (if item.Some? then [item.value] else []) + queue
    {
      if |queue| == 0 {
        return None;
      }
      item := Some(queue[0]);
      queue := queue[1..];
    }

    method Clear()
      requires Valid()
      modifies this
      ensures Valid() && queue == []
    {
      while |queue| > 0
        invariant Valid()
        decreases |queue|
      {
        queue := queue[1..];
      }
    }

    /**
     * One drain loop of a dump: move items to `got` while there are any and `got` is not
     * longer than the capacity.
     */
    method Drain(got: seq<T>) returns (all: seq<T>)
      requires Valid()
      modifies this
      ensures Valid()
      ensures var k := DrainCount(|got|, old(|queue|), capacity);
        all == got + old(queue)[..k] && queue == old(queue)[k..]
    {
      all := got;
      ghost var k := 0;
      while |queue| > 0 && |all| <= capacity
        invariant Valid() && 0 <= k <= DrainCount(|got|, old(|queue|), capacity)
        invariant all == got + old(queue)[..k] && queue == old(queue)[k..]
        decreases |queue|
      {
        var item := Dequeue();
        all := all + [item.value];
        k := k + 1;
      }
    }
  }

  /** How many items a drain loop moves: no more than fit, plus one. */
  function DrainCount(got: nat, queued: nat, capacity: nat): (k: nat)
    ensures k <= queued
  {
    if got > capacity then 0
    else if queued <= capacity + 1 - got then queued
    else capacity + 1 - got
  }
}
