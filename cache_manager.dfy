/**
 * `rlcache/cache_manager.py`: the front of the system.  A read publishes
 * `Read`, then serves a resident key from the cache (a hit) or reads the
 * backend and offers the value for admission (a miss).  A write publishes
 * `Update` and drops the resident copy (an invalidation), or publishes
 * `Write`, and then offers the value.  Admission asks the caching strategy,
 * takes the ttl from the ttl strategy, trims the cache once when it is full,
 * and writes.  An exception from an observer, the backend, the trim or the
 * cache's `set` ends the call where it happens.
 *
 * The cache and the backend are `InMemoryStorage`s; `None` read from the
 * backend is cached as the value `None`.  The eviction strategy is represented
 * by its decision for the trim at hand: the key it deletes, or the exception
 * it raises (the concrete strategies are modelled on their own).
 */
module CacheManagement {
  import opened Prelude
  import opened CacheConstants
  import ObserverDispatch
  import InMemory
  import SimpleStrategies
  import FixedTtl
  import StorageBase

  /** The `cache_metrics` counter. */
  datatype Metrics = Metrics(cacheHits: nat, cacheMiss: nat, cacheInvalidation: nat, cacheSize: nat)

  /** A stored `None` and a missing default read the same to the caller. */
  function Flatten<V>(v: Option<Option<V>>): (r: Option<V>)
    ensures r.Some? <==> v.Some? && v.value.Some?
    ensures r.Some? ==> r.value == v.value.value
  {
    match v
    case Some(Some(x)) => Some(x)
    case _ => None
  }

  /**
   * What `_set(key, values, cache_status)` does to a cache holding `memory`:
   * its outcome and the contents it leaves.  Nothing happens unless the caching
   * strategy admits the value; a full cache is trimmed once (`victim` is the
   * eviction strategy's decision: the key it deletes, or what it raises); then
   * the value is written with the estimated `ttl`.
   */
  function AdmitEffect<V>(caching: SimpleStrategies.CachingStrategy, ttl: int,
                          memory: map<Key, InMemory.CachedEntry<Option<V>>>, capacity: Option<int>,
                          key: Key, values: Option<V>, status: CacheStatus, victim: Result<Key>, now: nat)
    : (Outcome, map<Key, InMemory.CachedEntry<Option<V>>>)
  {
    if !SimpleStrategies.ShouldCache(caching, key, values, status) then (Done, memory)
    else
      var full := StorageBase.IsFull(capacity, |memory|);
      if full && victim.Err? then (Raised(victim.error), memory)
      else
        var trimmed := if full then memory - {victim.value} else memory;
        match InMemory.Stored(trimmed, capacity, key, values, ttl, now)
        case Ok(m) => (Done, m)
        case Err(e) => (Raised(e), trimmed)
  }

  /** A value the caching strategy refuses leaves the cache as it was, and `_set` succeeds. */
  lemma RefusedLeavesCache<V>(caching: SimpleStrategies.CachingStrategy, ttl: int,
                              memory: map<Key, InMemory.CachedEntry<Option<V>>>, capacity: Option<int>,
                              key: Key, values: Option<V>, status: CacheStatus, victim: Result<Key>, now: nat)
    requires !SimpleStrategies.ShouldCache(caching, key, values, status)
    ensures AdmitEffect(caching, ttl, memory, capacity, key, values, status, victim, now) == (Done, memory)
  {
  }

  /** After a successful admission the key reads back the value, due to expire after `ttl`. */
  lemma AdmittedIsCached<V>(caching: SimpleStrategies.CachingStrategy, ttl: int,
                            memory: map<Key, InMemory.CachedEntry<Option<V>>>, capacity: Option<int>,
                            key: Key, values: Option<V>, status: CacheStatus, victim: Result<Key>, now: nat)
    requires SimpleStrategies.ShouldCache(caching, key, values, status)
    requires AdmitEffect(caching, ttl, memory, capacity, key, values, status, victim, now).0 == Done
    ensures var m := AdmitEffect(caching, ttl, memory, capacity, key, values, status, victim, now).1;
            key in m && m[key] == InMemory.CachedEntry(values, now + ttl)
  {
  }

  /**
   * Admission trims at most once: every other key keeps its entry, except the
   * victim, which is dropped only when the cache was full.
   */
  lemma AdmitTrimsOnlyVictim<V>(caching: SimpleStrategies.CachingStrategy, ttl: int,
                                memory: map<Key, InMemory.CachedEntry<Option<V>>>, capacity: Option<int>,
                                key: Key, values: Option<V>, status: CacheStatus, victim: Result<Key>, now: nat,
                                other: Key)
    requires other in memory && other != key
    requires !(StorageBase.IsFull(capacity, |memory|) && victim == Ok(other))
    ensures var m := AdmitEffect(caching, ttl, memory, capacity, key, values, status, victim, now).1;
            other in m && m[other] == memory[other]
  {
  }

  /** Admission never makes a cache of capacity `c` hold more than `c + 1` entries. */
  lemma AdmitWithinBound<V>(caching: SimpleStrategies.CachingStrategy, ttl: int,
                            memory: map<Key, InMemory.CachedEntry<Option<V>>>, capacity: Option<int>,
                            key: Key, values: Option<V>, status: CacheStatus, victim: Result<Key>, now: nat)
    requires |memory| <= InMemory.Bound(capacity)
    ensures |AdmitEffect(caching, ttl, memory, capacity, key, values, status, victim, now).1| <= InMemory.Bound(capacity)
  {
    if SimpleStrategies.ShouldCache(caching, key, values, status) {
      var full := StorageBase.IsFull(capacity, |memory|);
      if !(full && victim.Err?) {
        var trimmed := if full then memory - {victim.value} else memory;
        assert |trimmed| <= |memory|;
        if InMemory.Stored(trimmed, capacity, key, values, ttl, now).Ok? {
          InMemory.StoredWithinBound(trimmed, capacity, key, values, ttl, now);
        }
      }
    }
  }

  class CacheManager<V> {
    const caching: SimpleStrategies.CachingStrategy
    const ttlStrategy: FixedTtl.FixedTtlStrategy
    const cache: InMemory.InMemoryStorage<Option<V>>
    const backend: InMemory.InMemoryStorage<V>
    const observers: ObserverDispatch.ObserverContainer
    var metrics: Metrics

    /** The cache and the backend are two storages (their value types differ, so they cannot be one object). */
    ghost predicate Valid()
      reads this, cache, backend
    {
      cache.Valid() && backend.Valid() && cache as object != backend as object
    }

    /** `CacheManager(...)`: the counters start at zero. */
    constructor (caching: SimpleStrategies.CachingStrategy, ttlStrategy: FixedTtl.FixedTtlStrategy,
                 cache: InMemory.InMemoryStorage<Option<V>>, backend: InMemory.InMemoryStorage<V>,
                 observers: ObserverDispatch.ObserverContainer)
      requires cache.Valid() && backend.Valid() && cache as object != backend as object
      ensures Valid()
      ensures this.caching == caching && this.ttlStrategy == ttlStrategy && this.cache == cache
              && this.backend == backend && this.observers == observers
      ensures metrics == Metrics(0, 0, 0, 0)
    {
      this.caching := caching;
      this.ttlStrategy := ttlStrategy;
      this.cache := cache;
      this.backend := backend;
      this.observers := observers;
      metrics := Metrics(0, 0, 0, 0);
    }

    /** `stats()`. */
    function Stats(): (r: Metrics)
      reads this
      ensures r == metrics
    {
      metrics
    }

    /**
     * `_set(key, values, cache_status)` at time `now`, with `victim` the
     * eviction strategy's decision should it be asked to trim.
     */
    method Admit(key: Key, values: Option<V>, status: CacheStatus, victim: Result<Key>, now: nat) returns (o: Outcome)
      requires Valid()
      modifies cache
      ensures Valid()
      ensures var eff := AdmitEffect(caching, ttlStrategy.ttl, old(cache.memory), cache.capacity, key, values, status, victim, now);
              o == eff.0 && cache.memory == eff.1
    {
      if !SimpleStrategies.ShouldCache(caching, key, values, status) {
        return Done;
      }
      var ttl := ttlStrategy.EstimateTtl(key);
      if cache.IsFull() {
        if victim.Err? {
          return Raised(victim.error);
        }
        var _ := cache.Delete(victim.value);
      }
      var r := cache.Set(key, values, ttl, now);
      if r.Err? {
        return Raised(r.error);
      }
      o := Done;
    }

    /**
     * `get(key)` at time `now`.  A hit reads the cache only; a miss reads the
     * backend (`KeyError` for a key it lacks) and offers the value with status `Miss`.
     */
    method Get(key: Key, victim: Result<Key>, now: nat) returns (r: Result<Option<V>>)
      requires Valid()
      modifies this, cache, backend, observers
      ensures Valid()
      ensures observers.delivered == old(observers.delivered) + ObserverDispatch.FanOut(observers.observers, key, ObserverDispatch.Read)
      ensures ObserverDispatch.Reached(observers.observers) < |observers.observers| ==>
                r == Err(AttributeError) && metrics == old(metrics) && cache.memory == old(cache.memory) && backend.memory == old(backend.memory)
      ensures ObserverDispatch.Reached(observers.observers) == |observers.observers| && key in old(cache.memory) ==>
                && metrics == old(metrics).(cacheHits := old(metrics).cacheHits + 1)
                && unchanged(backend)
                && (now <= old(cache.memory)[key].expiration ==>
                      r == Ok(Flatten(Some(old(cache.memory)[key].value))) && cache.memory == old(cache.memory))
                && (now > old(cache.memory)[key].expiration ==>
                      r == Ok(None) && cache.memory == old(cache.memory) - {key})
      ensures ObserverDispatch.Reached(observers.observers) == |observers.observers| && key !in old(cache.memory) ==>
                && metrics == old(metrics).(cacheMiss := old(metrics).cacheMiss + 1)
                && (key !in old(backend.memory) ==> r == Err(KeyError) && cache.memory == old(cache.memory) && backend.memory == old(backend.memory))
                && (key in old(backend.memory) ==>
                      var expired := now > old(backend.memory)[key].expiration;
                      var values := if expired then None else Some(old(backend.memory)[key].value);
                      var eff := AdmitEffect(caching, ttlStrategy.ttl, old(cache.memory), cache.capacity,
                                             key, values, Miss, victim, now);
                      && backend.memory == (if expired then old(backend.memory) - {key} else old(backend.memory))
                      && cache.memory == eff.1
                      && r == (if eff.0.Raised? then Err(eff.0.error) else Ok(values)))
    {
      var published := observers.Observe(key, ObserverDispatch.Read);
      if published.Raised? {
        return Err(published.error);
      }
      if cache.Contains(key) {
        metrics := metrics.(cacheHits := metrics.cacheHits + 1);
        var cached := cache.Get(key, None, now);
        return Ok(Flatten(cached.value));
      }
      metrics := metrics.(cacheMiss := metrics.cacheMiss + 1);
      var fetched := backend.Get(key, None, now);
      if fetched.Err? {
        return Err(fetched.error);
      }
      var values := fetched.value;
      var admitted := Admit(key, values, Miss, victim, now);
      if admitted.Raised? {
        return Err(admitted.error);
      }
      r := Ok(values);
    }

    /**
     * `set(key, values)` at time `now`: a resident key is invalidated (its
     * copy deleted, status `Invalidation`), any other is `New`; then `_set`.
     */
    method Set(key: Key, values: V, victim: Result<Key>, now: nat) returns (o: Outcome)
      requires Valid()
      modifies this, cache, observers
      ensures Valid()
      ensures unchanged(backend)
      ensures var kind := if key in old(cache.memory) then ObserverDispatch.Update else ObserverDispatch.Write;
              observers.delivered == old(observers.delivered) + ObserverDispatch.FanOut(observers.observers, key, kind)
      ensures ObserverDispatch.Reached(observers.observers) < |observers.observers| ==>
                o == Raised(AttributeError) && metrics == old(metrics) && unchanged(cache)
      ensures ObserverDispatch.Reached(observers.observers) == |observers.observers| ==>
                && (key in old(cache.memory) ==> metrics == old(metrics).(cacheInvalidation := old(metrics).cacheInvalidation + 1))
                && (key !in old(cache.memory) ==> metrics == old(metrics))
                && var status := if key in old(cache.memory) then Invalidation else New;
                   var eff := AdmitEffect(caching, ttlStrategy.ttl, old(cache.memory) - {key}, cache.capacity,
                                          key, Some(values), status, victim, now);
                   o == eff.0 && cache.memory == eff.1
    {
      var status: CacheStatus;
      if cache.Contains(key) {
        var published := observers.Observe(key, ObserverDispatch.Update);
        if published.Raised? {
          return published;
        }
        metrics := metrics.(cacheInvalidation := metrics.cacheInvalidation + 1);
        var _ := cache.Delete(key);
        status := Invalidation;
      } else {
        var published := observers.Observe(key, ObserverDispatch.Write);
        if published.Raised? {
          return published;
        }
        assert cache.memory == old(cache.memory) - {key};
        status := New;
      }
      o := Admit(key, Some(values), status, victim, now);
    }

    /** `delete(key)`: publishes `Eviction`, then deletes from the cache; no counter changes. */
    method Delete(key: Key) returns (o: Outcome)
      requires Valid()
      modifies cache, observers
      ensures Valid()
      ensures unchanged(backend)
      ensures observers.delivered == old(observers.delivered) + ObserverDispatch.FanOut(observers.observers, key, ObserverDispatch.Eviction)
      ensures ObserverDispatch.Reached(observers.observers) < |observers.observers| ==>
                o == Raised(AttributeError) && unchanged(cache)
      ensures ObserverDispatch.Reached(observers.observers) == |observers.observers| ==>
                o == Done && cache.memory == old(cache.memory) - {key}
    {
      o := observers.Observe(key, ObserverDispatch.Eviction);
      if o.Raised? {
        return;
      }
      var _ := cache.Delete(key);
    }
  }

  /** With a read-only caching strategy a write to a resident key only invalidates it: the new value is not cached. */
  lemma ReadOnlyWriteNotCached<V>(key: Key, values: V, status: CacheStatus)
    requires status in {Invalidation, New}
    ensures !SimpleStrategies.ShouldCache(SimpleStrategies.OnReadOnly, key, Some(values), status)
  {
  }
}
