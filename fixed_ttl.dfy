/**
 * `rlcache/strategies/ttl_estimation_strategies/fixed_ttl_strategy.py`: every
 * key gets the configured ttl.  The strategy also tracks each written key from
 * its write: a hit counts, any other event ends the tracking (after logging
 * the estimate against the real lifetime), and a rewrite starts it afresh.
 * As written, that log line reads `self.episode_num`, which no class of the
 * strategy ever assigns, so it raises `AttributeError` before the tracking
 * ends (`ObservedAsWritten`); `Observed` is the update without it.
 */
module FixedTtl {
  import opened Prelude
  import opened Observation

  /** `{'observation_time': ..., 'estimated_ttl': ..., 'hits': ...}`. */
  datatype Tracked = Tracked(observationTime: int, estimatedTtl: int, hits: nat)

  /** `observed_keys` after `observe(key, observation_type)` at time `now`. */
  function Observed(keys: map<Key, Tracked>, ttl: int, key: Key, kind: ObservationType, now: int): (r: map<Key, Tracked>)
    ensures forall k :: k != key ==> (k in r <==> k in keys) && (k in keys ==> r[k] == keys[k])
  {
    if key !in keys then
      if kind == Write then keys[key := Tracked(now, ttl, 0)] else keys
    else if kind == Hit then
      keys[key := keys[key].(hits := keys[key].hits + 1)]
    else
      var rest := keys - {key};
      if kind == Write then rest[key := Tracked(now, ttl, 0)] else rest
  }

  /**
   * `observe` as written: for a tracked key and any event but a hit, building
   * the log line raises `AttributeError` and the tracking is left as it was;
   * otherwise the update is `Observed`'s.
   */
  function ObservedAsWritten(keys: map<Key, Tracked>, ttl: int, key: Key, kind: ObservationType, now: int): (r: Result<map<Key, Tracked>>)
    ensures r.Err? <==> key in keys && kind != Hit
    ensures r.Err? ==> r.error == AttributeError
    ensures r.Ok? ==> r.value == Observed(keys, ttl, key, kind, now)
  {
    if key in keys && kind != Hit then Err(AttributeError)
    else Ok(Observed(keys, ttl, key, kind, now))
  }

  /**
   * A write, then an invalidation of the same key: as written the second call
   * raises and the key stays tracked; as intended the key is untracked.
   */
  lemma InvalidateAfterWriteRaises(keys: map<Key, Tracked>, ttl: int, key: Key, t0: int, t1: int)
    requires key !in keys
    ensures var w := ObservedAsWritten(keys, ttl, key, Write, t0);
            && w == Ok(keys[key := Tracked(t0, ttl, 0)])
            && ObservedAsWritten(w.value, ttl, key, Invalidate, t1) == Err(AttributeError)
            && key in w.value
    ensures Observed(Observed(keys, ttl, key, Write, t0), ttl, key, Invalidate, t1) == keys
  {
    var w := Observed(keys, ttl, key, Write, t0);
    assert w == keys[key := Tracked(t0, ttl, 0)];
    assert w - {key} == keys;
  }

  /** An untracked key starts being tracked, with no hits and the configured ttl, on a `Write` only. */
  lemma UntrackedStartsOnWrite(keys: map<Key, Tracked>, ttl: int, key: Key, kind: ObservationType, now: int)
    requires key !in keys
    ensures kind == Write ==> Observed(keys, ttl, key, kind, now) == keys[key := Tracked(now, ttl, 0)]
    ensures kind != Write ==> Observed(keys, ttl, key, kind, now) == keys
  {
  }

  /** A hit on a tracked key adds one hit and keeps its write time and estimate. */
  lemma HitCounts(keys: map<Key, Tracked>, ttl: int, key: Key, now: int)
    requires key in keys
    ensures var r := Observed(keys, ttl, key, Hit, now);
            key in r && r[key].hits == keys[key].hits + 1
            && r[key].observationTime == keys[key].observationTime && r[key].estimatedTtl == keys[key].estimatedTtl
  {
  }

  /** Any event other than a hit or a write ends the tracking of a tracked key. */
  lemma OtherEventsUntrack(keys: map<Key, Tracked>, ttl: int, key: Key, kind: ObservationType, now: int)
    requires key in keys && kind != Hit && kind != Write
    ensures Observed(keys, ttl, key, kind, now) == keys - {key}
  {
  }

  /** A write of a tracked key restarts its tracking: no hits, the configured ttl, the new time. */
  lemma RewriteRestarts(keys: map<Key, Tracked>, ttl: int, key: Key, now: int)
    requires key in keys
    ensures var r := Observed(keys, ttl, key, Write, now);
            r.Keys == keys.Keys && r[key] == Tracked(now, ttl, 0)
  {
  }

  class FixedTtlStrategy {
    const ttl: int
    var observedKeys: map<Key, Tracked>

    /** `FixedTtlStrategy(config)` with `config['ttl'] == ttl`: nothing tracked. */
    constructor (ttl: int)
      ensures this.ttl == ttl && observedKeys == map[]
    {
      this.ttl := ttl;
      observedKeys := map[];
    }

    /** `observe(key, observation_type)` at time `now` as written: the log line raises for a tracked key and any event but a hit. */
    method ObserveAsWritten(key: Key, kind: ObservationType, now: int) returns (o: Outcome)
      modifies this
      ensures var r := ObservedAsWritten(old(observedKeys), ttl, key, kind, now);
              if r.Ok? then o == Done && observedKeys == r.value
              else o == Raised(r.error) && observedKeys == old(observedKeys)
    {
      if key !in observedKeys {
        if kind == Write {
          observedKeys := observedKeys[key := Tracked(now, ttl, 0)];
        }
        return Done;
      }
      var stored := observedKeys[key];
      if kind == Hit {
        observedKeys := observedKeys[key := stored.(hits := stored.hits + 1)];
        return Done;
      }
      return Raised(AttributeError);
    }

    /** `observe(key, observation_type)` at time `now` as intended: the log line is left out. */
    method Observe(key: Key, kind: ObservationType, now: int)
      modifies this
      ensures observedKeys == Observed(old(observedKeys), ttl, key, kind, now)
    {
      if key !in observedKeys {
        if kind == Write {
          observedKeys := observedKeys[key := Tracked(now, ttl, 0)];
        }
        return;
      }
      var stored := observedKeys[key];
      if kind == Hit {
        observedKeys := observedKeys[key := stored.(hits := stored.hits + 1)];
      } else {
        observedKeys := observedKeys - {key};
        if kind == Write {
          observedKeys := observedKeys[key := Tracked(now, ttl, 0)];
        }
      }
    }

    /** `estimate_ttl(key)`: the configured ttl, whatever the key and whatever has been observed. */
    function EstimateTtl(key: Key): (r: int)
      ensures r == ttl
    {
      ttl
    }
  }
}
