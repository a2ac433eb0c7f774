/**
  The memoising caches in front of a store: `Cache` keeps one value, `KVCache` one value per
  key. `load` and `save` are the store's own and are not modelled: the value `load` would
  return comes in as an argument, and every call made to the store is recorded.
 */
module Caches {
  import opened Common

  /** A call made to the store of a `Cache`. */
  datatype Call<T> = Load | Save(value: T)

  class Cache<T> {
    /** The `lateinit` field: `None` until initialised. */
    var cached: Option<T>
    var calls: seq<Call<T>>

    constructor ()
      ensures cached == None && calls == []
    {
      cached := None;
      calls := [];
    }

    /**
      `get`: a value already held comes back without asking the store; otherwise the store
      is asked, and only a non-null answer is kept.
     */
    method Get(loaded: Option<T>) returns (r: Option<T>)
      modifies this
      ensures old(cached).Some? ==> r == old(cached) && cached == old(cached) && calls == old(calls)
      ensures old(cached).None? ==> r == loaded && cached == loaded && calls == old(calls) + [Load]
    {
      if cached.Some? {
        return cached;
      }
      calls := calls + [Load];
      if loaded.None? {
        return None;
      }
      cached := loaded;
      r := cached;
    }

    /** `set`: the value is held and handed to the store. */
    method Set(value: T)
      modifies this
      ensures cached == Some(value) && calls == old(calls) + [Save(value)]
    {
      cached := Some(value);
      calls := calls + [Save(value)];
    }
  }

  /** A call made to the store of a `KVCache`. */
  datatype KVCall<K, V> = LoadKey(key: K) | SaveKey(key: K, value: V)

  class KVCache<K(==), V> {
    var cache: map<K, V>
    var calls: seq<KVCall<K, V>>

    constructor ()
      ensures cache == map[] && calls == []
    {
      cache := map[];
      calls := [];
    }

    /**
      `get(key)`: a held key's value comes back without asking the store; otherwise the
      store is asked for that key, and only a non-null answer is kept. Other keys are untouched.
     */
    method Get(key: K, loaded: Option<V>) returns (r: Option<V>)
      modifies this
      ensures key in old(cache) ==> r == Some(old(cache)[key]) && cache == old(cache) && calls == old(calls)
      ensures key !in old(cache) ==> r == loaded && calls == old(calls) + [LoadKey(key)]
      ensures key !in old(cache) && loaded.None? ==> cache == old(cache)
      ensures key !in old(cache) && loaded.Some? ==> cache == old(cache)[key := loaded.value]
    {
      if key in cache {
        return Some(cache[key]);
      }
      calls := calls + [LoadKey(key)];
      if loaded.None? {
        return None;
      }
      cache := cache[key := loaded.value];
      r := loaded;
    }

    /** `set(key, value)`: the key now holds the value, other keys keep theirs, and the store is told. */
    method Set(key: K, value: V)
      modifies this
      ensures cache == old(cache)[key := value]
      ensures forall k | k != key :: (k in cache <==> k in old(cache)) && (k in cache ==> cache[k] == old(cache)[k])
      ensures calls == old(calls) + [SaveKey(key, value)]
    {
      cache := cache[key := value];
      calls := calls + [SaveKey(key, value)];
    }
  }
}
