/**
 * `rlcache/strategies/caching_strategies/simple_strategies.py`: the two fixed
 * admission policies.  Read-write caching admits every write; read-only
 * caching admits only what a read missed.
 */
module SimpleStrategies {
  import opened Prelude
  import opened CacheConstants

  datatype CachingStrategy = OnReadWrite | OnReadOnly

  /** `should_cache(key, values, cache_request_type)`. */
  function ShouldCache<V>(strategy: CachingStrategy, key: Key, values: V, status: CacheStatus): (r: bool)
  {
    match strategy
    case OnReadWrite => true
    case OnReadOnly => status == Miss
  }

  /** Read-write caching admits everything. */
  lemma ReadWriteAlwaysCaches<V>(key: Key, values: V, status: CacheStatus)
    ensures ShouldCache(OnReadWrite, key, values, status)
  {
  }

  /** Read-only caching admits exactly the misses: not new keys, invalidations or hits. */
  lemma ReadOnlyCachesOnlyMisses<V>(key: Key, values: V, status: CacheStatus)
    ensures ShouldCache(OnReadOnly, key, values, status) <==> status == Miss
    ensures status in {New, Invalidation, Hit} ==> !ShouldCache(OnReadOnly, key, values, status)
  {
  }

  /** Neither policy looks at the key or the values. */
  lemma IndependentOfRequest<V>(strategy: CachingStrategy, k1: Key, v1: V, k2: Key, v2: V, status: CacheStatus)
    ensures ShouldCache(strategy, k1, v1, status) == ShouldCache(strategy, k2, v2, status)
  {
  }

  /** Read-only admits a subset of what read-write admits. */
  lemma ReadOnlyAdmitsLess<V>(key: Key, values: V, status: CacheStatus)
    ensures ShouldCache(OnReadOnly, key, values, status) ==> ShouldCache(OnReadWrite, key, values, status)
  {
  }
}
