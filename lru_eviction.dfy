/**
 * `rlcache/strategies/eviction_strategies/lru_eviction_strategy.py` (and its
 * older copy `rlcache/eviction_strategies/lru_eviction_strategy.py`, the same
 * code): an observer keeping an `OrderedDict` of keys, least recent first, and
 * a strategy that evicts the front key.  `observe` pops the key, then
 * re-inserts it at the back unless the event is an eviction; as written the
 * guard is `not observation_type.Eviction`, the negation of an enum member,
 * which is always `False`, so no key is ever re-inserted.
 */
module LruEviction {
  import opened Prelude
  import opened ObserverDispatch
  import opened OrderedDicts
  import InMemory

  /** `lru.pop(key)`, ignoring the `KeyError` of an unseen key; the as-written `observe`. */
  function TouchedAsWritten(lru: seq<Item<ObservationType>>, key: Key): (r: seq<Item<ObservationType>>)
    ensures |r| <= |lru|
    ensures forall it :: it in r ==> it in lru
  {
    Remove(lru, key)
  }

  /** The intended `observe`: the key moves to the back, or leaves when the event is an eviction. */
  function Touched(lru: seq<Item<ObservationType>>, key: Key, kind: ObservationType): (r: seq<Item<ObservationType>>)
  {
    var rest := Remove(lru, key);
    if kind == Eviction then rest else rest + [Item(key, kind)]
  }

  /** As written, the tracked keys never grow: a queue that starts empty stays empty. */
  lemma AsWrittenNeverTracks(lru: seq<Item<ObservationType>>, key: Key, other: Key)
    requires Unique(lru)
    ensures key !in Keys(TouchedAsWritten(lru, key))
    ensures other in Keys(TouchedAsWritten(lru, key)) ==> other in Keys(lru)
    ensures lru == [] ==> TouchedAsWritten(lru, key) == []
  {
    RemovedKeys(lru, key, key);
    RemovedKeys(lru, key, other);
  }

  /** A `Write` of a fresh key is not tracked as written, and is the most recent key as intended. */
  lemma WriteTrackedOnlyAsIntended(key: Key)
    ensures TouchedAsWritten([], key) == []
    ensures Touched([], key, Write) == [Item(key, Write)]
  {
  }

  /** The intended `observe` keeps one entry per key. */
  lemma TouchedKeepsUnique(lru: seq<Item<ObservationType>>, key: Key, kind: ObservationType)
    requires Unique(lru)
    ensures Unique(Touched(lru, key, kind))
  {
    var rest := Remove(lru, key);
    RemoveKeepsUnique(lru, key);
    RemovedKeys(lru, key, key);
    AssignKeepsUnique(rest, key, kind);
  }

  /**
   * The intended `observe`: a non-eviction event makes the key the most recent
   * and keeps the other keys in order; an eviction untracks it.
   */
  lemma TouchedMovesToBack(lru: seq<Item<ObservationType>>, key: Key, kind: ObservationType, other: Key)
    requires Unique(lru)
    ensures var r := Touched(lru, key, kind);
            && (kind != Eviction ==> |r| > 0 && r[|r| - 1] == Item(key, kind) && r[..|r| - 1] == Remove(lru, key))
            && (kind == Eviction ==> key !in Keys(r))
            && (other != key ==> (other in Keys(r) <==> other in Keys(lru)))
  {
    var rest := Remove(lru, key);
    RemovedKeys(lru, key, key);
    RemovedKeys(lru, key, other);
    if kind != Eviction {
      var r := rest + [Item(key, kind)];
      assert r[..|r| - 1] == rest;
      assert Keys(r) == Keys(rest) + [key];
    }
  }

  class LRUObserver {
    var lru: seq<Item<ObservationType>>

    ghost predicate Valid()
      reads this
    {
      Unique(lru)
    }

    constructor ()
      ensures Valid() && lru == []
    {
      lru := [];
    }

    /** `observe(key, observation_type)` as written: raises nothing, never re-inserts. */
    method ObserveAsWritten(key: Key, kind: ObservationType)
      requires Valid()
      modifies this
      ensures Valid()
      ensures lru == TouchedAsWritten(old(lru), key)
    {
      RemoveKeepsUnique(lru, key);
      lru := Remove(lru, key);
    }

    /** `observe(key, observation_type)` as intended: raises nothing, re-inserts at the back. */
    method Observe(key: Key, kind: ObservationType)
      requires Valid()
      modifies this
      ensures Valid()
      ensures lru == Touched(old(lru), key, kind)
    {
      TouchedKeepsUnique(lru, key, kind);
      var rest := Remove(lru, key);
      if kind != Eviction {
        rest := rest + [Item(key, kind)];
      }
      lru := rest;
    }
  }

  class LRUEvictionStrategy {
    const observer: LRUObserver

    constructor ()
      ensures fresh(observer) && observer.Valid() && observer.lru == []
    {
      observer := new LRUObserver();
    }

    /**
     * `trim_cache(cache)`: pops the front (least recent) key, raising
     * `KeyError` when nothing is tracked, and deletes exactly that key from
     * the cache; the remaining keys keep their order.
     */
    method TrimCache<V>(cache: InMemory.InMemoryStorage<V>) returns (o: Outcome)
      requires observer.Valid() && cache.Valid()
      modifies observer, cache
      ensures observer.Valid() && cache.Valid()
      ensures old(observer.lru) == [] ==> o == Raised(KeyError) && observer.lru == [] && unchanged(cache)
      ensures old(observer.lru) != [] ==>
                && o == Done
                && observer.lru == old(observer.lru)[1..]
                && cache.memory == old(cache.memory) - {old(observer.lru)[0].key}
    {
      var popped := PopFirst(observer.lru);
      if popped.Err? {
        return Raised(popped.error);
      }
      observer.lru := popped.value.1;
      var _ := cache.Delete(popped.value.0.key);
      o := Done;
    }
  }

  /** As written, the strategy's queue is empty after any events, so the first trim raises `KeyError`. */
  method TrimAfterWriteAsWritten<V>(cache: InMemory.InMemoryStorage<V>, key: Key) returns (o: Outcome)
    requires cache.Valid()
    modifies cache
    ensures o == Raised(KeyError)
  {
    var strategy := new LRUEvictionStrategy();
    strategy.observer.ObserveAsWritten(key, Write);
    o := strategy.TrimCache(cache);
  }

  /** As intended, the same trim evicts the written key. */
  method TrimAfterWrite<V>(cache: InMemory.InMemoryStorage<V>, key: Key) returns (o: Outcome)
    requires cache.Valid()
    modifies cache
    ensures o == Done && cache.memory == old(cache.memory) - {key}
  {
    var strategy := new LRUEvictionStrategy();
    strategy.observer.Observe(key, Write);
    o := strategy.TrimCache(cache);
  }
}
