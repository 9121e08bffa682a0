/** The bounded cache: least recently used goes first, and a disarmed cache holds nothing. */
module Lru {
  import opened Common

  ghost predicate Distinct<K>(s: seq<K>) {
    forall i, j :: 0 <= i < j < |s| ==> s[i] != s[j]
  }

  function Without<K(==)>(s: seq<K>, k: K): seq<K> {
    if s == [] then [] else (if s[0] == k then [] else [s[0]]) + Without(s[1..], k)
  }

  /** A key used again moves to the front, and nothing else changes place. */
  function Touched<K(==)>(s: seq<K>, k: K): seq<K> {
    [k] + Without(s, k)
  }

  lemma {:induction false} WithoutKeys<K(!new)>(s: seq<K>, k: K)
    requires Distinct(s)
    ensures Distinct(Without(s, k))
    ensures forall x :: x in Without(s, k) <==> x in s && x != k
    ensures |Without(s, k)| == if k in s then |s| - 1 else |s|
  {
    if s != [] {
      WithoutKeys(s[1..], k);
      assert s[0] !in s[1..];
      forall x
        ensures x in Without(s, k) <==> x in s && x != k
      {
        assert s == [s[0]] + s[1..];
      }
    }
  }

  lemma DropLast<K(!new)>(s: seq<K>)
    requires Distinct(s) && s != []
    ensures forall k :: k in s[..|s| - 1] <==> k in s && k != s[|s| - 1]
  {
    assert s == s[..|s| - 1] + [s[|s| - 1]];
  }

  class Cache<K(==, !new), V> {
    const max: int
    /** Most recently used first. */
    var order: seq<K>
    var items: map<K, V>
    var disarmed: bool

    ghost predicate Valid()
      reads this
    {
      && Distinct(order) && (forall k :: k in order <==> k in items)
      && |order| <= (if max > 0 then max else 0)
      && (disarmed ==> order == [])
    }

    constructor (bound: int)
      ensures Valid() && max == bound && items == map[] && !disarmed
    {
      max, order, items, disarmed := bound, [], map[], false;
    }

    method Get(key: K) returns (r: Option<V>)
      requires Valid()
      modifies this`order
      ensures Valid()
      ensures r == if key in items then Some(items[key]) else None
      ensures order == if key in items then Touched(old(order), key) else old(order)
    {
      if max <= 0 || disarmed || key !in items {
        EmptyOrder();
        return None;
      }
      WithoutKeys(order, key);
      order := Touched(order, key);
      return Some(items[key]);
    }

    lemma EmptyOrder()
      requires Valid()
      ensures max <= 0 || disarmed ==> forall k :: k !in items
    {
    }

    /** Stores a value at the front, keeping the `max` most recently used. A cache with no room, or
        disarmed, stores nothing. */
    method Add(key: K, value: V)
      requires Valid()
      modifies this`order, this`items
      ensures Valid()
      ensures max <= 0 || disarmed ==> order == old(order) && items == old(items)
      ensures max > 0 && !disarmed ==>
        && order == Kept(Touched(old(order), key), max)
        && key in items && items[key] == value
        && forall k :: k in items && k != key ==> k in old(items) && items[k] == old(items)[k]
    {
      if max <= 0 || disarmed {
        return;
      }
      WithoutKeys(order, key);
      hide Without;
      order, items := Touched(order, key), items[key := value];
      Evict();
      assert order[0] == key;
    }

    /** Drops the least recently used entries until the rest fit. */
    method Evict()
      requires max > 0 && Distinct(order) && forall k :: k in order <==> k in items
      modifies this`order, this`items
      ensures order == Kept(old(order), max) && Distinct(order) && forall k :: k in order <==> k in items
      ensures forall k :: k in items ==> k in old(items) && items[k] == old(items)[k]
    {
      while |order| > max
        invariant max <= |order| <= |old(order)| || order == old(order)
        invariant |order| <= |old(order)| && order == old(order)[..|order|] && Distinct(order)
        invariant forall k :: k in order <==> k in items
        invariant forall k :: k in items ==> k in old(items) && items[k] == old(items)[k]
      {
        var n := |order| - 1;
        DropLast(order);
        items := items - {order[n]};
        order := order[..n];
      }
    }

    method Remove(key: K)
      requires Valid()
      modifies this`order, this`items
      ensures Valid() && order == Without(old(order), key) && items == old(items) - {key}
    {
      WithoutKeys(order, key);
      order, items := Without(order, key), items - {key};
    }

    /** Disarming empties. */
    method SetArmed(armed: bool)
      requires Valid()
      modifies this`order, this`items, this`disarmed
      ensures Valid() && disarmed == !armed
      ensures items == if armed then old(items) else map[]
      ensures order == if armed then old(order) else []
    {
      disarmed := !armed;
      if !armed {
        order, items := [], map[];
      }
    }

    method Purge()
      requires Valid()
      modifies this`order, this`items
      ensures Valid() && order == [] && items == map[]
    {
      order, items := [], map[];
    }
  }

  /** The first `n` of a sequence, or all of it. */
  function Kept<K>(s: seq<K>, n: int): seq<K>
    requires n >= 0
  {
    if |s| <= n then s else s[..n]
  }
}
