/**
 * The cache itself: a list of nodes, most recently touched first, and a map from
 * each key to its node. A node reference plays the part of a list iterator, and of
 * the pointer to the value that `Find` hands out.
 */
module LruCache {
  import opened Common
  import opened RecencyList

  class Node<K, V> {
    const key: K
    var value: V

    constructor (key: K, value: V)
      ensures this.key == key && this.value == value
    {
      this.key := key;
      this.value := value;
    }
  }

  /** The entries a list of nodes holds. */
  ghost function EntriesOf<K, V>(l: seq<Node<K, V>>): (s: seq<Entry<K, V>>)
    reads l
    ensures |s| == |l|
    ensures forall i :: 0 <= i < |l| ==> s[i] == Entry(l[i].key, l[i].value)
  {
    seq(|l|, i requires 0 <= i < |l| reads l => Entry(l[i].key, l[i].value))
  }

  function Position<K, V>(l: seq<Node<K, V>>, n: Node<K, V>): (i: nat)
    requires n in l
    ensures i < |l| && l[i] == n
  {
    if l[0] == n then 0 else 1 + Position(l[1..], n)
  }

  /** List and map hold the same keys, each once, and each map entry points at its own node. */
  ghost predicate Linked<K(!new), V>(l: seq<Node<K, V>>, m: map<K, Node<K, V>>) {
    && (forall i, j :: 0 <= i < j < |l| ==> l[i] != l[j])
    && (forall i :: 0 <= i < |l| ==> l[i].key in m && m[l[i].key] == l[i])
    && (forall k :: k in m ==> m[k] in l && m[k].key == k)
  }

  function RemoveAt<T>(l: seq<T>, i: nat): (r: seq<T>)
    requires i < |l|
    ensures |r| == |l| - 1
    ensures forall x :: x in r ==> x in l
  {
    l[..i] + l[i + 1..]
  }

  /** Unlinking a node, from list and map alike. */
  lemma {:induction false} LinkedRemove<K(!new), V>(l: seq<Node<K, V>>, m: map<K, Node<K, V>>, i: nat)
    requires Linked(l, m) && i < |l|
    ensures Linked(RemoveAt(l, i), m - {l[i].key})
  {
    var r := RemoveAt(l, i);
    var m' := m - {l[i].key};
    forall j | 0 <= j < |r| ensures r[j].key in m' && m'[r[j].key] == r[j] {
      assert r[j] == l[if j < i then j else j + 1];
    }
    forall k | k in m' ensures m'[k] in r && m'[k].key == k {
      var j := Position(l, m[k]);
      assert r[if j < i then j else j - 1] == m'[k];
    }
  }

  /** Linking a node at the front, under a key the map does not have. */
  lemma {:induction false} LinkedPush<K(!new), V>(l: seq<Node<K, V>>, m: map<K, Node<K, V>>, n: Node<K, V>)
    requires Linked(l, m) && n.key !in m
    ensures Linked([n] + l, m[n.key := n])
  {
    var r := [n] + l;
    var m' := m[n.key := n];
    forall k | k in m' ensures m'[k] in r && m'[k].key == k {
      if k != n.key { assert r[1 + Position(l, m[k])] == m'[k]; } else { assert r[0] == m'[k]; }
    }
  }

  /** Moving a node to the front leaves the map right as it is. */
  lemma {:induction false} LinkedSplice<K(!new), V>(l: seq<Node<K, V>>, m: map<K, Node<K, V>>, i: nat)
    requires Linked(l, m) && i < |l|
    ensures Linked([l[i]] + RemoveAt(l, i), m)
  {
    LinkedRemove(l, m, i);
    LinkedPush(RemoveAt(l, i), m - {l[i].key}, l[i]);
    assert (m - {l[i].key})[l[i].key := l[i]] == m;
  }

  lemma {:induction false} EntriesRemoveAt<K, V>(l: seq<Node<K, V>>, i: nat)
    requires i < |l|
    ensures EntriesOf(RemoveAt(l, i)) == RemoveAt(EntriesOf(l), i)
    ensures EntriesOf([l[i]] + RemoveAt(l, i)) == [EntriesOf(l)[i]] + RemoveAt(EntriesOf(l), i)
  {
    var r := RemoveAt(l, i);
    forall j | 0 <= j < |r| ensures r[j] == l[if j < i then j else j + 1] { }
  }

  /** Where the map points is where the list has the key. */
  lemma {:induction false} MapPointsAtKey<K(!new), V>(l: seq<Node<K, V>>, m: map<K, Node<K, V>>, key: K)
    requires Linked(l, m) && key in m
    ensures IndexOf(EntriesOf(l), key) == Position(l, m[key])
  {
    LinkedDistinct(l, m);
    IndexOfUnique(EntriesOf(l), key, Position(l, m[key]));
  }

  /** Moving the node of `key` to the front is a touch. */
  lemma {:induction false} SpliceIsTouch<K(!new), V>(l: seq<Node<K, V>>, m: map<K, Node<K, V>>, key: K)
    requires Linked(l, m) && key in m
    ensures var r := [m[key]] + RemoveAt(l, Position(l, m[key]));
      EntriesOf(r) == Touch(EntriesOf(l), key) && Has(EntriesOf(l), key)
  {
    MapPointsAtKey(l, m, key);
    var i := Position(l, m[key]);
    EntriesRemoveAt(l, i);
  }

  /** Unlinking the node of `key` forgets that key. */
  lemma {:induction false} EraseIsWithout<K(!new), V>(l: seq<Node<K, V>>, m: map<K, Node<K, V>>, key: K)
    requires Linked(l, m) && key in m
    ensures EntriesOf(RemoveAt(l, Position(l, m[key]))) == Without(EntriesOf(l), key) && Has(EntriesOf(l), key)
  {
    MapPointsAtKey(l, m, key);
    EntriesRemoveAt(l, Position(l, m[key]));
  }

  /** A key the map does not have is not in the list either. */
  lemma {:induction false} AbsentFromBoth<K(!new), V>(l: seq<Node<K, V>>, m: map<K, Node<K, V>>, key: K)
    requires Linked(l, m) && key !in m
    ensures Lookup(EntriesOf(l), key) == None
  {
  }

  lemma {:induction false} LinkedDistinct<K(!new), V>(l: seq<Node<K, V>>, m: map<K, Node<K, V>>)
    requires Linked(l, m)
    ensures Distinct(EntriesOf(l))
  {
  }

  /** As many map entries as list nodes. */
  lemma {:induction false} LinkedSize<K(!new), V>(l: seq<Node<K, V>>, m: map<K, Node<K, V>>)
    requires Linked(l, m)
    ensures |m| == |l|
    decreases |l|
  {
    if l != [] {
      LinkedRemove(l, m, 0);
      LinkedSize(RemoveAt(l, 0), m - {l[0].key});
      assert (m - {l[0].key}).Keys == m.Keys - {l[0].key};
    } else {
      assert m == map[];
    }
  }

  class LruCache<K(==, !new), V> {
    const capacity: nat
    var nodeList: seq<Node<K, V>>
    var lruMap: map<K, Node<K, V>>
    ghost var contents: seq<Entry<K, V>>
    ghost var Repr: set<object>

    ghost predicate Valid()
      reads this, Repr
    {
      && this in Repr && (forall n :: n in nodeList ==> n in Repr)
      && 0 < capacity && |nodeList| <= capacity
      && Linked(nodeList, lruMap)
      && contents == EntriesOf(nodeList)
    }

    /** A capacity of 0 is fatal in the source, so no such cache exists. */
    constructor (capacity: nat)
      requires capacity > 0
      ensures this.capacity == capacity
      ensures Valid() && contents == [] && fresh(Repr)
    {
      this.capacity := capacity;
      nodeList := [];
      lruMap := map[];
      contents := [];
      Repr := {this};
    }

    /** Puts a rearranged list of the cache's own nodes, and the map that goes with it, in place. */
    method Relink(l: seq<Node<K, V>>, m: map<K, Node<K, V>>)
      requires this in Repr && (forall n :: n in l ==> n in Repr)
      requires 0 < capacity && |l| <= capacity && Linked(l, m)
      modifies this
      ensures Repr == old(Repr)
      ensures Valid() && nodeList == l && lruMap == m
      ensures contents == old(EntriesOf(l))
    {
      nodeList := l;
      lruMap := m;
      contents := EntriesOf(l);
    }

    method Clear()
      requires Valid()
      modifies this
      ensures Repr == old(Repr)
      ensures Valid() && contents == []
    {
      lruMap := map[];
      nodeList := [];
      contents := [];
    }

    /** Returns the node of `key`, moved to the front, or null. */
    method Find(key: K) returns (node: Node?<K, V>)
      requires Valid()
      modifies this
      ensures Repr == old(Repr)
      ensures Valid()
      ensures contents == Touch(old(contents), key)
      ensures node == null <==> !Has(old(contents), key)
      ensures node == null <==> key !in lruMap
      ensures node != null ==> nodeList != [] && nodeList[0] == node && node.key == key
      ensures lruMap == old(lruMap)
    {
      if key !in lruMap {
        AbsentFromBoth(nodeList, lruMap, key);
        return null;
      }
      node := lruMap[key];
      MoveToFront(node);
    }

    /** Splicing a node of the list to its front. */
    method MoveToFront(node: Node<K, V>)
      requires Valid() && node.key in lruMap && lruMap[node.key] == node
      modifies this
      ensures Repr == old(Repr)
      ensures Valid()
      ensures contents == Touch(old(contents), node.key) && Has(old(contents), node.key)
      ensures nodeList != [] && nodeList[0] == node
      ensures lruMap == old(lruMap)
    {
      SpliceIsTouch(nodeList, lruMap, node.key);
      LinkedSplice(nodeList, lruMap, Position(nodeList, node));
      Relink([node] + RemoveAt(nodeList, Position(nodeList, node)), lruMap);
    }

    method Get(key: K) returns (value: Option<V>)
      requires Valid()
      modifies this
      ensures Repr == old(Repr)
      ensures Valid()
      ensures value == Lookup(old(contents), key)
      ensures contents == Touch(old(contents), key)
    {
      var node := Find(key);
      if node == null {
        return None;
      }
      value := Some(node.value);
      assert contents[0] == Entry(key, node.value);
    }

    method HasKey(key: K) returns (found: bool)
      requires Valid()
      modifies this
      ensures Repr == old(Repr)
      ensures Valid()
      ensures found == Has(old(contents), key)
      ensures contents == Touch(old(contents), key)
    {
      var node := Find(key);
      found := node != null;
    }

    method Put(key: K, value: V) returns (evicted: Option<Entry<K, V>>)
      requires Valid()
      modifies Repr
      ensures Valid()
      ensures evicted == Evicted(old(contents), capacity, key)
      ensures contents == RecencyList.Put(old(contents), capacity, key, value)
      ensures fresh(Repr - old(Repr))
    {
      LinkedDistinct(nodeList, lruMap);
      TouchFacts(contents, key);
      var node := Find(key);
      if node != null {
        SetFront(value);
        return None;
      }
      evicted := PopIfFull();
      PushFront(key, value);
    }

    /** Writing through the pointer that a successful Find returned. */
    method SetFront(value: V)
      requires Valid() && nodeList != []
      modifies nodeList[0], this`contents
      ensures Repr == old(Repr)
      ensures Valid()
      ensures contents == [Entry(nodeList[0].key, value)] + old(contents)[1..]
    {
      nodeList[0].value := value;
      contents := [Entry(nodeList[0].key, value)] + contents[1..];
    }

    /** The first half of a Put of a new key: make room by dropping the tail. */
    method PopIfFull() returns (evicted: Option<Entry<K, V>>)
      requires Valid()
      modifies this
      ensures Repr == old(Repr)
      ensures Valid() && |nodeList| < capacity
      ensures var s := old(contents);
        if |s| < capacity then evicted == None && contents == s
        else evicted == Some(s[|s| - 1]) && contents == s[..|s| - 1]
      ensures lruMap.Keys <= old(lruMap).Keys
    {
      LinkedSize(nodeList, lruMap);
      if |lruMap| != capacity {
        return None;
      }
      var tail := nodeList[|nodeList| - 1];
      LinkedRemove(nodeList, lruMap, |nodeList| - 1);
      assert RemoveAt(nodeList, |nodeList| - 1) == nodeList[..|nodeList| - 1];
      evicted := Some(Entry(tail.key, tail.value));
      Relink(nodeList[..|nodeList| - 1], lruMap - {tail.key});
    }

    /** The second half: a new node in front. */
    method PushFront(key: K, value: V)
      requires Valid() && |nodeList| < capacity && key !in lruMap
      modifies this
      ensures Valid()
      ensures contents == [Entry(key, value)] + old(contents)
      ensures fresh(Repr - old(Repr))
    {
      var front := new Node(key, value);
      LinkedPush(nodeList, lruMap, front);
      nodeList := [front] + nodeList;
      contents := [Entry(key, value)] + contents;
      Repr := Repr + {front};
      lruMap := lruMap[key := front];
    }

    method Remove(key: K) returns (removed: bool)
      requires Valid()
      modifies this
      ensures Repr == old(Repr)
      ensures Valid()
      ensures removed == Has(old(contents), key)
      ensures contents == Without(old(contents), key)
    {
      if key !in lruMap {
        AbsentFromBoth(nodeList, lruMap, key);
        return false;
      }
      EraseIsWithout(nodeList, lruMap, key);
      LinkedRemove(nodeList, lruMap, Position(nodeList, lruMap[key]));
      Relink(RemoveAt(nodeList, Position(nodeList, lruMap[key])), lruMap - {key});
      return true;
    }

    method Size() returns (size: nat)
      requires Valid()
      ensures size == |contents|
    {
      LinkedSize(nodeList, lruMap);
      size := |lruMap|;
    }
  }
}
