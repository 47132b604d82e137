/**
 * MapCache: a bounded cache over an insertion-ordered map. A lookup of a missing
 * key computes the value, appends the entry and, when the cache then holds more
 * than `maxEntries` entries, drops the entry inserted first. A hit does not
 * reorder the entries.
 */
module MapCaches {
  import opened Wrappers

  /** MapCache.MAX_ENTRIES */
  const DefaultMaxEntries: nat := 1000

  datatype CacheError = NegativeMaxEntries  // the IllegalArgumentException of the constructor

  predicate Unique(keys: seq<string>) {
    forall i, j :: 0 <= i < j < |keys| ==> keys[i] != keys[j]
  }

  /** The entries of a cache: keys in insertion order, each stored once, no more than
      the bound. */
  ghost predicate CacheOk<T>(keys: seq<string>, store: map<string, T>, maxEntries: nat) {
    (forall k :: k in store <==> k in keys) && Unique(keys) && |keys| <= maxEntries
  }

  /** The key order after appending `key` and applying removeEldestEntry once. */
  function InsertKeys(keys: seq<string>, key: string, maxEntries: nat): seq<string> {
    if |keys| + 1 > maxEntries then (keys + [key])[1..] else keys + [key]
  }

  /** The stored entries after appending `key` and applying removeEldestEntry once. */
  function InsertStore<T>(keys: seq<string>, store: map<string, T>, key: string, v: T, maxEntries: nat): map<string, T> {
    if |keys| + 1 > maxEntries then store[key := v] - {(keys + [key])[0]} else store[key := v]
  }

  /**
   * An insertion keeps the cache within its bound; the new key is kept (with its
   * value) unless the bound is zero; when the cache was full it loses exactly its
   * eldest key, however often that key was read; no other entry changes.
   */
  lemma InsertKeeps<T>(keys: seq<string>, store: map<string, T>, key: string, v: T, maxEntries: nat)
    requires CacheOk(keys, store, maxEntries) && key !in store
    ensures CacheOk(InsertKeys(keys, key, maxEntries), InsertStore(keys, store, key, v, maxEntries), maxEntries)
    ensures key in InsertStore(keys, store, key, v, maxEntries) <==> maxEntries > 0
    ensures maxEntries > 0 ==> InsertStore(keys, store, key, v, maxEntries)[key] == v
    ensures |keys| == maxEntries > 0 ==> InsertKeys(keys, key, maxEntries) == keys[1..] + [key]
    ensures forall k :: k in store && k in InsertStore(keys, store, key, v, maxEntries) ==>
      InsertStore(keys, store, key, v, maxEntries)[k] == store[k]
    ensures forall k :: k in store && k !in InsertStore(keys, store, key, v, maxEntries) ==> k == keys[0]
    ensures forall k :: k in InsertStore(keys, store, key, v, maxEntries) ==> k in store || k == key
  {
    var ks := keys + [key];
    assert forall i :: 0 <= i < |keys| ==> ks[i] == keys[i];
    if |keys| + 1 > maxEntries && |keys| > 0 {
      assert ks[1..] == keys[1..] + [key];
    }
  }

  class MapCache<T> {
    const maxEntries: nat
    /** The keys in insertion order (the LinkedHashMap's iteration order). */
    var keys: seq<string>
    var store: map<string, T>

    ghost predicate Valid()
      reads this
    {
      CacheOk(keys, store, maxEntries)
    }

    /** MapCache(): the default bound of 1000 entries. */
    constructor Default()
      ensures maxEntries == DefaultMaxEntries && keys == [] && store == map[] && Valid()
    {
      maxEntries := DefaultMaxEntries;
      keys := [];
      store := map[];
    }

    /** MapCache(maxEntries), once the argument is known not to be negative. */
    constructor (maxEntries: nat)
      ensures this.maxEntries == maxEntries && keys == [] && store == map[] && Valid()
    {
      this.maxEntries := maxEntries;
      keys := [];
      store := map[];
    }

    /**
     * MapCache.get (computeIfAbsent): a stored key returns its value and changes
     * nothing, whatever `compute` would give; a missing key returns `compute(key)`
     * and, when that succeeds, inserts it. A failure propagates and stores nothing.
     */
    method Get<E>(key: string, compute: string -> Result<T, E>) returns (r: Result<T, E>)
      requires Valid()
      modifies this
      ensures Valid()
      ensures key in old(store) ==> r == Success(old(store)[key]) && keys == old(keys) && store == old(store)
      ensures key !in old(store) ==> r == compute(key)
      ensures key !in old(store) && r.Failure? ==> keys == old(keys) && store == old(store)
      ensures key !in old(store) && r.Success? ==>
        keys == InsertKeys(old(keys), key, maxEntries) &&
        store == InsertStore(old(keys), old(store), key, r.value, maxEntries)
    {
      if key in store {
        return Success(store[key]);
      }
      r := compute(key);
      if r.Success? {
        InsertKeeps(keys, store, key, r.value, maxEntries);
        keys, store := keys + [key], store[key := r.value];
        if |keys| > maxEntries {
          store := store - {keys[0]};
          keys := keys[1..];
        }
      }
    }

    /** MapCache.clear */
    method Clear()
      requires Valid()
      modifies this
      ensures keys == [] && store == map[] && Valid()
    {
      keys, store := [], map[];
    }
  }

  /** MapCache(maxEntries): a negative bound is refused. */
  method NewMapCache<T>(maxEntries: int) returns (r: Result<MapCache<T>, CacheError>)
    ensures maxEntries < 0 <==> r.Failure?
    ensures r.Success? ==> fresh(r.value) && r.value.maxEntries == maxEntries && r.value.keys == [] && r.value.Valid()
  {
    if maxEntries < 0 {
      return Failure(NegativeMaxEntries);
    }
    var cache := new MapCache<T>(maxEntries);
    r := Success(cache);
  }
}
