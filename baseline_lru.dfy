/**
 * `rlcache/baselines/lru_cache.py`: the baseline timestamp LRU cache.  Its
 * `get` stamps any key, stored or not.  Its `set` is meant to evict the least
 * recent key once the storage holds `capacity` entries, then write and stamp
 * the key; as written the test is `len(self.cache.size()) >= capacity`,
 * `len` of an `int`, which raises `TypeError` on every call (`SetAsWritten`).
 * `Set` is the intended version.  The wrapped `Cache` is modelled by its
 * contents and capacity; its `set` always writes.
 */
module BaselineLru {
  import opened Prelude
  import opened Stamps

  /** `len(x)` of a Python object: defined for sized collections only, a `TypeError` on an `int`. */
  datatype PyValue = PyInt(i: int) | PyList(items: seq<PyValue>)

  function Len(x: PyValue): (r: Result<nat>)
    ensures r.Err? <==> x.PyInt?
    ensures r.Err? ==> r.error == TypeError
    ensures r.Ok? ==> r.value == |x.items|
  {
    match x
    case PyInt(_) => Err(TypeError)
    case PyList(items) => Ok(|items|)
  }

  class LRUCache<V> {
    var tm: nat
    /** The wrapped cache, by its contents. */
    var store: map<Key, V>
    const capacity: nat
    var lru: map<Key, nat>

    ghost predicate Valid()
      reads this
    {
      WellStamped(lru, tm)
    }

    constructor (store: map<Key, V>, capacity: nat)
      ensures Valid()
      ensures tm == 0 && this.store == store && this.capacity == capacity && lru == map[]
    {
      tm := 0;
      this.store := store;
      this.capacity := capacity;
      lru := map[];
    }

    /** `get(key)`: stamps the key whether or not it is stored, then reads the cache. */
    method Get(key: Key) returns (r: Option<V>)
      requires Valid()
      modifies this
      ensures Valid()
      ensures store == old(store) && r == Lookup(store, key, None)
      ensures lru == Stamp(old(lru), key, old(tm)) && tm == old(tm) + 1
    {
      StampKeepsWellStamped(lru, key, tm);
      lru := Stamp(lru, key, tm);
      tm := tm + 1;
      r := Lookup(store, key, None);
    }

    /** `set(key, value)` as written: `len(self.cache.size())` raises before anything changes. */
    method SetAsWritten(key: Key, value: V) returns (o: Outcome)
      requires Valid()
      ensures o == Raised(TypeError)
    {
      var size := Len(PyInt(|store|));
      return Raised(size.error);
    }

    /**
     * `set(key, value)` as intended: at capacity the least recent key is
     * deleted and untracked (`ValueError` from `min` when nothing is tracked);
     * then the key is written and stamped.
     */
    method Set(key: Key, value: V) returns (o: Outcome)
      requires Valid()
      modifies this
      ensures Valid()
      ensures |old(store)| < capacity ==>
                o == Done && store == old(store)[key := value]
                && lru == Stamp(old(lru), key, old(tm)) && tm == old(tm) + 1
      ensures |old(store)| >= capacity && old(lru) == map[] ==>
                o == Raised(ValueError) && store == old(store) && lru == old(lru) && tm == old(tm)
      ensures |old(store)| >= capacity && old(lru) != map[] ==>
                exists victim :: IsLeastRecent(old(lru), victim)
                  && o == Done
                  && store == (old(store) - {victim})[key := value]
                  && lru == Stamp(old(lru) - {victim}, key, old(tm)) && tm == old(tm) + 1
    {
      if |store| >= capacity {
        var victim := LeastRecent(lru);
        if victim.Err? {
          assert |lru| == 0;
          return Raised(victim.error);
        }
        DropKeepsWellStamped(lru, {victim.value}, tm);
        store := store - {victim.value};
        lru := lru - {victim.value};
      }
      store := store[key := value];
      StampKeepsWellStamped(lru, key, tm);
      lru := Stamp(lru, key, tm);
      tm := tm + 1;
      o := Done;
    }
  }

  /**
   * The baseline's victim is the least recently touched key, even one that
   * was only read and never stored: after `get("x")` on an empty cache of
   * capacity one and `set("a")`, a second `set("b")` evicts "x" and the cache
   * holds two entries.
   */
  method ReadOnlyKeyShieldsStoredOne<V>(v: V, w: V) returns (cache: LRUCache<V>)
    ensures cache.store == map["a" := v, "b" := w]
  {
    cache := new LRUCache(map[], 1);
    var _ := cache.Get("x");
    assert cache.store == map[] && cache.lru == map["x" := 0];
    var _ := cache.Set("a", v);
    assert cache.store == map["a" := v];
    assert cache.lru == map["x" := 0, "a" := 1];
    ghost var before := cache.lru;
    assert IsLeastRecent(before, "x");
    assert forall k :: IsLeastRecent(before, k) ==> k == "x" by {
      forall k | IsLeastRecent(before, k)
        ensures k == "x"
      {
        LeastRecentUnique(before, cache.tm, k, "x");
      }
    }
    assert map["a" := v] - {"x"} == map["a" := v];
    var _ := cache.Set("b", w);
  }
}
