/**
 * `rlcache/strategies/eviction_strategies/fifo_eviction_strategy.py`: an
 * `OrderedDict` of written keys in order of first write.  A `Write` records the
 * key's ttl and write time (a rewrite keeps the key's place); an `Expiration`
 * or `Invalidate` drops it; `trim_cache` evicts the front key.
 */
module FifoEviction {
  import opened Prelude
  import opened Observation
  import opened OrderedDicts
  import TtlCache
  import Links

  /** `{'ttl': ttl, 'observation_time': observation_time}`. */
  datatype FifoInfo = FifoInfo(ttl: int, observationTime: int)

  /**
   * The queue after `observe(key, observation_type, info)` at time `now`, or
   * the `KeyError` it raises: `info['ttl']` on a `Write` whose info has no ttl,
   * `del fifo[key]` on an untracked key.  `ttl` is `info.get('ttl')`.
   */
  function Observed(fifo: seq<Item<FifoInfo>>, key: Key, kind: ObservationType,
                    ttl: Option<int>, now: int): (r: Result<seq<Item<FifoInfo>>>)
    ensures r.Err? ==> r.error == KeyError
    ensures r.Err? <==> (kind == Write && ttl.None?)
                        || (kind in {Expiration, Invalidate} && key !in Keys(fifo))
  {
    match kind
    case Write =>
      if ttl.None? then Err(KeyError) else Ok(Assign(fifo, key, FifoInfo(ttl.value, now)))
    case Expiration =>
      if key in Keys(fifo) then Ok(Remove(fifo, key)) else Err(KeyError)
    case Invalidate =>
      if key in Keys(fifo) then Ok(Remove(fifo, key)) else Err(KeyError)
    case _ => Ok(fifo)
  }

  /** A `Write` of an untracked key appends it at the back. */
  lemma WriteAppends(fifo: seq<Item<FifoInfo>>, key: Key, ttl: int, now: int)
    requires key !in Keys(fifo)
    ensures Observed(fifo, key, Write, Some(ttl), now) == Ok(fifo + [Item(key, FifoInfo(ttl, now))])
  {
  }

  /** A `Write` of a tracked key replaces its info and keeps the order of the keys. */
  lemma RewriteKeepsPlace(fifo: seq<Item<FifoInfo>>, key: Key, ttl: int, now: int)
    requires Unique(fifo) && key in Keys(fifo)
    ensures var r := Observed(fifo, key, Write, Some(ttl), now);
            r.Ok? && Keys(r.value) == Keys(fifo) && Get(r.value, key) == Some(FifoInfo(ttl, now))
  {
    AssignThenGet(fifo, key, FifoInfo(ttl, now));
  }

  /** `Hit`, `Miss` and `EvictionPolicy` leave the queue as it is. */
  lemma OtherKindsKeepQueue(fifo: seq<Item<FifoInfo>>, key: Key, kind: ObservationType, ttl: Option<int>, now: int)
    requires kind in {Hit, Miss, EvictionPolicy}
    ensures Observed(fifo, key, kind, ttl, now) == Ok(fifo)
  {
  }

  /** `Expiration` and `Invalidate` untrack a tracked key and keep the others in order. */
  lemma ExpiryUntracks(fifo: seq<Item<FifoInfo>>, key: Key, kind: ObservationType, ttl: Option<int>, now: int, other: Key)
    requires Unique(fifo) && key in Keys(fifo) && kind in {Expiration, Invalidate}
    ensures var r := Observed(fifo, key, kind, ttl, now);
            r.Ok? && (other in Keys(r.value) <==> other in Keys(fifo) && other != key)
            && r.value == fifo[..IndexOf(fifo, key)] + fifo[IndexOf(fifo, key) + 1..]
  {
    assert Observed(fifo, key, kind, ttl, now) == Ok(Remove(fifo, key));
    RemovedKeys(fifo, key, other);
  }

  /** Every observation keeps one queue entry per key. */
  lemma ObservedKeepsUnique(fifo: seq<Item<FifoInfo>>, key: Key, kind: ObservationType, ttl: Option<int>, now: int)
    requires Unique(fifo) && Observed(fifo, key, kind, ttl, now).Ok?
    ensures Unique(Observed(fifo, key, kind, ttl, now).value)
  {
    if kind == Write {
      AssignKeepsUnique(fifo, key, FifoInfo(ttl.value, now));
    } else if kind in {Expiration, Invalidate} {
      RemoveKeepsUnique(fifo, key);
    }
  }

  class FIFOEvictionStrategy {
    var fifo: seq<Item<FifoInfo>>

    ghost predicate Valid()
      reads this
    {
      Unique(fifo)
    }

    constructor ()
      ensures Valid() && fifo == []
    {
      fifo := [];
    }

    /** `observe(key, observation_type, info)` at time `now`: the queue bookkeeping. */
    method Observe(key: Key, kind: ObservationType, ttl: Option<int>, now: int) returns (o: Outcome)
      requires Valid()
      modifies this
      ensures Valid()
      ensures var r := Observed(old(fifo), key, kind, ttl, now);
              if r.Ok? then o == Done && fifo == r.value else o == Raised(r.error) && fifo == old(fifo)
    {
      var r := Observed(fifo, key, kind, ttl, now);
      if r.Err? {
        return Raised(r.error);
      }
      ObservedKeepsUnique(fifo, key, kind, ttl, now);
      fifo := r.value;
      o := Done;
    }

    /**
     * `trim_cache(cache)` at time `now`: pops the front key (`KeyError` on an
     * empty queue), asserts the cache holds it live (`AssertionError`, with
     * the key already popped), deletes it from the cache and answers `[key]`.
     */
    method TrimCache<V>(cache: TtlCache.TTLCache<V>, now: int) returns (r: Result<seq<Key>>)
      requires Valid() && cache.Valid()
      modifies this, cache
      ensures Valid() && cache.Valid()
      ensures old(fifo) == [] ==> r == Err(KeyError) && fifo == [] && unchanged(cache)
      ensures old(fifo) != [] && !old(cache.Contains(fifo[0].key, now)) ==>
                r == Err(AssertionError) && fifo == old(fifo)[1..] && unchanged(cache)
      ensures old(fifo) != [] && old(cache.Contains(fifo[0].key, now)) ==>
                var victim := old(fifo)[0].key;
                && r == Ok([victim]) && fifo == old(fifo)[1..]
                && cache.memory == old(cache.memory) - {victim}
                && cache.chain == Links.Unlink(old(cache.chain), victim)
                && cache.hookCalls == old(cache.hookCalls) && cache.evictHookFunc == old(cache.evictHookFunc)
    {
      var popped := PopFirst(fifo);
      if popped.Err? {
        return Err(popped.error);
      }
      var victim := popped.value.0.key;
      fifo := popped.value.1;
      if !cache.Contains(victim, now) {
        return Err(AssertionError);
      }
      var deleted := cache.Delete(victim);
      assert deleted.Ok?;
      r := Ok([victim]);
    }
  }
}
