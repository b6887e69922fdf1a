/**
 * The process-wide object cache (cpc/network/cache.py): values stored
 * under keys until removed or until the whole cache is cleared.
 */
module ObjectCache {
  import opened Wrappers

  class Cache<K(==), V> {
    var cache: map<K, V>

    constructor()
      ensures cache == map[] && Size() == 0
    {
      cache := map[];
    }

    /** get: the value stored under `key`, or None (the source's False) when there is none. */
    function Get(key: K): (r: Option<V>)
      reads this
      ensures r.Some? <==> key in cache
      ensures r.Some? ==> r.value == cache[key]
    {
      if key in cache then Some(cache[key]) else None
    }

    /** size: the number of stored keys. */
    function Size(): (n: nat)
      reads this
      ensures n == |cache.Keys|
    {
      |cache|
    }

    /**
     * add: stores or overwrites the value under `key`; the size grows only
     * for a new key, and every other entry is unchanged.
     */
    method Add(key: K, value: V)
      modifies this
      ensures cache == old(cache)[key := value]
      ensures Get(key) == Some(value)
      ensures forall k :: k != key ==> Get(k) == (if k in old(cache) then Some(old(cache)[k]) else None)
      ensures Size() == old(Size()) + (if key in old(cache) then 0 else 1)
    {
      cache := cache[key := value];
      AddSize(old(cache), key, value);
    }

    /** remove: deletes `key`; an absent key changes nothing. */
    method Remove(key: K)
      modifies this
      ensures cache == old(cache) - {key}
      ensures Get(key) == None
      ensures forall k :: k != key ==> Get(k) == (if k in old(cache) then Some(old(cache)[k]) else None)
      ensures key !in old(cache) ==> cache == old(cache)
      ensures Size() == old(Size()) - (if key in old(cache) then 1 else 0)
    {
      if key in cache {
        RemoveSize(cache, key);
        cache := cache - {key};
      }
    }

    /** cleanAll: the cache is emptied. */
    method CleanAll()
      modifies this
      ensures cache == map[] && Size() == 0
      ensures forall k :: Get(k) == None
    {
      cache := map[];
    }
  }

  /** Storing under a key grows a map by one exactly when the key is new. */
  lemma AddSize<K, V>(m: map<K, V>, key: K, value: V)
    ensures |m[key := value].Keys| == |m.Keys| + (if key in m then 0 else 1)
  {
    if key in m {
      assert m[key := value].Keys == m.Keys;
    } else {
      assert m[key := value].Keys == m.Keys + {key};
    }
  }

  /** Deleting a present key shrinks a map by one. */
  lemma RemoveSize<K, V>(m: map<K, V>, key: K)
    requires key in m
    ensures |(m - {key}).Keys| == |m.Keys| - 1
  {
    assert (m - {key}).Keys == m.Keys - {key};
  }
}
