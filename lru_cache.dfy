/**
 * `rlcache/eviction_strategies/lru_cache.py`: an LRU cache over a storage whose
 * `set` answers `False` when it refuses a write.  Every key it tracks carries
 * the clock value of its last `get` or `set`; a refused write evicts the key
 * with the smallest stamp and writes again.  The wrapped storage is modelled by
 * its contents and capacity: its `set` refuses exactly a new key when it is
 * already at capacity, and overwrites otherwise.
 */
module LruCache {
  import opened Prelude
  import opened Stamps

  /** `state()`: `{'size': ..., 'capacity': ...}`. */
  datatype CacheState = CacheState(size: nat, capacity: nat)

  /** The wrapped storage's `set` accepts the write. */
  predicate Accepts<V>(store: map<Key, V>, capacity: nat, key: Key)
  {
    key in store || |store| < capacity
  }

  /** A storage at capacity accepts a new key again once one stored key is deleted. */
  lemma DeleteMakesRoom<V>(store: map<Key, V>, capacity: nat, victim: Key, key: Key)
    requires |store| <= capacity && victim in store
    ensures Accepts(store - {victim}, capacity, key)
  {
    assert |store - {victim}| == |store| - 1;
  }

  class LRUCache<V> {
    var tm: nat
    /** The wrapped storage, by its contents. */
    var store: map<Key, V>
    const capacity: nat
    var lru: map<Key, nat>

    ghost predicate Valid()
      reads this
    {
      && lru.Keys <= store.Keys
      && |store| <= capacity
      && WellStamped(lru, tm)
    }

    /** `LRUCache(cache)`: the clock at 0, nothing tracked. */
    constructor (store: map<Key, V>, capacity: nat)
      requires |store| <= capacity
      ensures Valid()
      ensures tm == 0 && this.store == store && this.capacity == capacity && lru == map[]
    {
      tm := 0;
      this.store := store;
      this.capacity := capacity;
      lru := map[];
    }

    /** `get(key)`: a tracked key is stamped and read; an untracked one answers `None` and changes nothing. */
    method Get(key: Key) returns (r: Option<V>)
      requires Valid()
      modifies this
      ensures Valid() && store == old(store)
      ensures key in old(lru) ==> lru == Stamp(old(lru), key, old(tm)) && tm == old(tm) + 1 && r == Lookup(store, key, None)
      ensures key !in old(lru) ==> lru == old(lru) && tm == old(tm) && r == None
    {
      if key in lru {
        StampKeepsWellStamped(lru, key, tm);
        lru := Stamp(lru, key, tm);
        tm := tm + 1;
        return Lookup(store, key, None);
      }
      r := None;
    }

    /**
     * `set(key, value)`: when the storage refuses, the least recent key is
     * deleted from it and untracked (`ValueError` from `min` when nothing is
     * tracked), and the write is repeated; then the key is stamped.
     */
    method Set(key: Key, value: V) returns (r: Result<bool>)
      requires Valid()
      modifies this
      ensures Valid()
      ensures Accepts(old(store), capacity, key) ==>
                && r == Ok(true)
                && store == old(store)[key := value]
                && lru == Stamp(old(lru), key, old(tm)) && tm == old(tm) + 1
      ensures !Accepts(old(store), capacity, key) && old(lru) == map[] ==>
                r == Err(ValueError) && store == old(store) && lru == old(lru) && tm == old(tm)
      ensures !Accepts(old(store), capacity, key) && old(lru) != map[] ==>
                exists victim :: IsLeastRecent(old(lru), victim)
                  && r == Ok(true)
                  && store == (old(store) - {victim})[key := value]
                  && lru == Stamp(old(lru) - {victim}, key, old(tm)) && tm == old(tm) + 1
    {
      if !Accepts(store, capacity, key) {
        var victim := LeastRecent(lru);
        if victim.Err? {
          assert |lru| == 0;
          return Err(victim.error);
        }
        var v := victim.value;
        assert v in store;
        DeleteMakesRoom(store, capacity, v, key);
        DropKeepsWellStamped(lru, {v}, tm);
        store := store - {v};
        lru := lru - {v};
        Write(key, value);
        assert IsLeastRecent(old(lru), v);
        return Ok(true);
      }
      Write(key, value);
      r := Ok(true);
    }

    /** The write the storage accepts, and the stamp that follows it. */
    method Write(key: Key, value: V)
      requires Valid() && Accepts(store, capacity, key)
      modifies this
      ensures Valid()
      ensures store == old(store)[key := value] && lru == Stamp(old(lru), key, old(tm)) && tm == old(tm) + 1
    {
      store := store[key := value];
      StampKeepsWellStamped(lru, key, tm);
      lru := Stamp(lru, key, tm);
      tm := tm + 1;
    }

    /** `delete(key)`: untracks the key (`KeyError` when untracked), then answers the storage's delete. */
    method Delete(key: Key) returns (r: Result<bool>)
      requires Valid()
      modifies this
      ensures Valid() && tm == old(tm)
      ensures key !in old(lru) ==> r == Err(KeyError) && lru == old(lru) && store == old(store)
      ensures key in old(lru) ==> r == Ok(true) && lru == old(lru) - {key} && store == old(store) - {key}
    {
      if key !in lru {
        return Err(KeyError);
      }
      DropKeepsWellStamped(lru, {key}, tm);
      lru := lru - {key};
      r := Ok(key in store);
      store := store - {key};
    }

    /** `clear()`: empties the storage and the stamps; the clock keeps running. */
    method Clear()
      requires Valid()
      modifies this
      ensures Valid()
      ensures store == map[] && lru == map[] && tm == old(tm)
    {
      store := map[];
      lru := map[];
    }

    /** `size()`. */
    function Size(): (r: nat)
      reads this
      ensures r == |store.Keys|
    {
      |store|
    }

    /** `state()`. */
    function State(): (r: CacheState)
      reads this
      ensures r.size == |store.Keys| && r.capacity == capacity
    {
      CacheState(|store|, capacity)
    }

    /** `contains(key)`: the storage's answer; tracking is not consulted. */
    function Contains(key: Key): (r: bool)
      reads this
      ensures r <==> key in store
    {
      key in store
    }
  }

  /** In a cache of capacity one, writing a second key evicts the first. */
  method SecondKeyEvictsFirst<V>(v: V, w: V) returns (cache: LRUCache<V>)
    ensures cache.store == map["b" := w] && cache.lru == map["b" := 1] && cache.tm == 2
  {
    cache := new LRUCache(map[], 1);
    var _ := cache.Set("a", v);
    assert cache.lru == map["a" := 0];
    var r := cache.Set("b", w);
    assert !Accepts(map["a" := v], 1, "b");
    assert map["a" := v] - {"a"} == map[];
  }
}
