/**
 * `rlcache/backend/inmemory_ttl.py`: the same linked-list TTL cache as
 * `ttl_cache.py`, with an observer in place of the hook.  Its `get` does not
 * sweep: it raises `ExpiredKeyError` for a key whose link has expired and
 * otherwise reads the storage.  Its `expire` deletes the key, tells the
 * observer, then unlinks; as written the notice names `ObservationType.Expiration`
 * of `rlcache/observers/observer.py`, which has no such member, so the first
 * expired link raises `AttributeError` after its key is already deleted
 * (`ExpireAsWritten`).  The class below notifies with the `Expiration` kind of
 * `rlcache/observer.py`, as evidently intended.
 */
module InMemoryTtl {
  import opened Prelude
  import Observation
  import ObserverDispatch
  import StorageBase
  import opened Links

  /** A call `observer.observe(key, ObservationType.Expiration, {'expire_at': expire})`. */
  datatype Notice = Notice(key: Key, kind: Observation.ObservationType, expireAt: int)

  /** The notices the sweep sends for the expired links `expired`, in order. */
  function ExpiryNotices(expired: seq<Link>): (r: seq<Notice>)
    ensures |r| == |expired|
    ensures forall j :: 0 <= j < |expired| ==>
              r[j] == Notice(expired[j].key, Observation.Expiration, expired[j].expire)
  {
    seq(|expired|, j requires 0 <= j < |expired| =>
          Notice(expired[j].key, Observation.Expiration, expired[j].expire))
  }

  class TTLCache<V> {
    /** The wrapped storage, by its contents, and its capacity (for `is_full`). */
    var memory: map<Key, V>
    const capacity: Option<int>
    /** The links from `root.next` to `root.prev`. */
    var chain: seq<Link>
    /** Every notice sent to the observer so far, in order. */
    var notices: seq<Notice>

    ghost predicate Valid()
      reads this
    {
      DistinctKeys(chain)
    }

    /** `TTLCache(memory, observer)`: no links, nothing observed. */
    constructor (memory: map<Key, V>, capacity: Option<int>)
      ensures Valid()
      ensures this.memory == memory && this.capacity == capacity && chain == [] && notices == []
    {
      this.memory := memory;
      this.capacity := capacity;
      chain := [];
      notices := [];
    }

    /** `is_full()`: the storage's. */
    function IsFull(): (r: bool)
      reads this
      ensures r <==> capacity.Some? && |memory| >= capacity.value
    {
      StorageBase.IsFull(capacity, |memory|)
    }

    /**
     * `expire(time)` as written: the first expired link's key is deleted from
     * the storage, then evaluating `ObservationType.Expiration` raises
     * `AttributeError`; the link stays and nothing is observed.
     */
    method ExpireAsWritten(now: int) returns (o: Outcome)
      requires Valid()
      modifies this
      ensures Valid()
      ensures chain == old(chain) && notices == old(notices)
      ensures ExpiredPrefix(old(chain), now) == 0 ==> o == Done && memory == old(memory)
      ensures ExpiredPrefix(old(chain), now) > 0 ==>
                o == Raised(AttributeError) && memory == old(memory) - {old(chain)[0].key}
    {
      if |chain| > 0 && Expired(chain[0], now) {
        memory := memory - {chain[0].key};
        var kind := ObserverDispatch.Member("Expiration");
        ObserverDispatch.NoExpirationMember();
        assert kind.Err?;
        return Raised(kind.error);
      }
      o := Done;
    }

    /** `expire(time)`: delete, observe, unlink, for every link of the expired front run. */
    method Expire(now: int)
      requires Valid()
      modifies this
      ensures Valid()
      ensures chain == SweptChain(old(chain), now)
      ensures memory == SweptMemory(old(memory), old(chain), now)
      ensures notices == old(notices) + ExpiryNotices(old(chain)[..ExpiredPrefix(old(chain), now)])
    {
      ghost var i := 0;
      while |chain| > 0 && Expired(chain[0], now)
        invariant Valid()
        invariant 0 <= i <= |old(chain)| && chain == old(chain)[i..]
        invariant forall j :: 0 <= j < i ==> Expired(old(chain)[j], now)
        invariant memory == old(memory) - KeySet(old(chain)[..i])
        invariant notices == old(notices) + ExpiryNotices(old(chain)[..i])
        decreases |chain|
      {
        var curr := chain[0];
        assert curr == old(chain)[i];
        assert old(chain)[..i + 1] == old(chain)[..i] + [curr];
        assert KeySet(old(chain)[..i + 1]) == KeySet(old(chain)[..i]) + {curr.key};
        memory := memory - {curr.key};
        notices := notices + [Notice(curr.key, Observation.Expiration, curr.expire)];
        chain := chain[1..];
        i := i + 1;
      }
      assert i == ExpiredPrefix(old(chain), now);
    }

    /** `clear()` at time `now`: sweeps, then empties the storage; the links are left as they are. */
    method Clear(now: int)
      requires Valid()
      modifies this
      ensures Valid()
      ensures memory == map[]
      ensures chain == SweptChain(old(chain), now)
      ensures notices == old(notices) + ExpiryNotices(old(chain)[..ExpiredPrefix(old(chain), now)])
    {
      Expire(now);
      memory := map[];
    }

    /** `set(key, value, ttl)` at time `now`: sweeps, stores, and links the key at the tail. */
    method Set(key: Key, value: V, ttl: int, now: int) returns (r: bool)
      requires Valid()
      modifies this
      ensures Valid()
      ensures r
      ensures memory == SweptMemory(old(memory), old(chain), now)[key := value]
      ensures chain == Relinked(SweptChain(old(chain), now), key, now + ttl)
      ensures notices == old(notices) + ExpiryNotices(old(chain)[..ExpiredPrefix(old(chain), now)])
    {
      Expire(now);
      memory := memory[key := value];
      RelinkedDistinct(chain, key, now + ttl);
      chain := Relinked(chain, key, now + ttl);
      r := true;
    }

    /**
     * `delete(key)`: deletes the key from storage, then pops its link, which
     * raises `KeyError` when the key is not linked.
     */
    method Delete(key: Key) returns (r: Result<bool>)
      requires Valid()
      modifies this
      ensures Valid()
      ensures memory == old(memory) - {key} && notices == old(notices)
      ensures Find(old(chain), key).None? ==> r == Err(KeyError) && chain == old(chain)
      ensures Find(old(chain), key).Some? ==> r == Ok(true) && chain == Unlink(old(chain), key)
      ensures Find(old(chain), key).Some? ==> |chain| == |old(chain)| - 1
    {
      memory := memory - {key};
      if Find(chain, key).None? {
        return Err(KeyError);
      }
      UnlinkLinked(chain, key);
      chain := Unlink(chain, key);
      r := Ok(true);
    }

    /** `contains(key)` at time `now`: the key's link must exist and not have expired. */
    function Contains(key: Key, now: int): (r: bool)
      requires Valid()
      reads this
      ensures r <==> Live(chain, key, now)
    {
      match Find(chain, key)
      case None => false
      case Some(link) =>
        !Expired(link, now)
    }

    /**
     * `get(key, default)` at time `now`, without a sweep: `ExpiredKeyError`
     * when the key's link has expired, otherwise the storage's value or `default`.
     */
    function Get(key: Key, default: Option<V>, now: int): (r: Result<Option<V>>)
      requires Valid()
      reads this
      ensures r.Err? <==> Find(chain, key).Some? && !Live(chain, key, now)
      ensures r.Err? ==> r.error == ExpiredKeyError
      ensures r.Ok? ==> r.value == Lookup(memory, key, default)
    {
      match Find(chain, key)
      case Some(link) =>
        if Expired(link, now) then Err(ExpiredKeyError) else Ok(Lookup(memory, key, default))
      case None => Ok(Lookup(memory, key, default))
    }

    /** `__len__` at time `now`: the links, less the expired run at the front. */
    method Len(now: int) returns (count: int)
      requires Valid()
      ensures count == |chain| - ExpiredPrefix(chain, now)
    {
      count := |chain|;
      var j := 0;
      while j < |chain| && Expired(chain[j], now)
        invariant 0 <= j <= |chain| && count == |chain| - j
        invariant forall k :: 0 <= k < j ==> Expired(chain[k], now)
      {
        count := count - 1;
        j := j + 1;
      }
    }
  }

  /**
   * As written, a `set` issued once an earlier key has expired raises: its
   * sweep stops at the first expired link, whose key is already deleted.
   */
  method SetAfterExpiryRaises<V>(v: V) returns (o: Outcome, cache: TTLCache<V>)
    ensures o == Raised(AttributeError)
    ensures "a" !in cache.memory && cache.chain == [Link("a", 10)] && cache.notices == []
  {
    cache := new TTLCache(map[], None);
    var _ := cache.Set("a", v, 10, 0);
    assert cache.chain == [Link("a", 10)] by {
      assert ExpiredPrefix([], 0) == 0;
      UnlinkAbsent([], "a");
    }
    o := cache.ExpireAsWritten(11);
  }

  /** With the intended notice the same sweep deletes the key, unlinks it and observes its expiry. */
  method SetAfterExpiryObserved<V>(v: V, w: V) returns (cache: TTLCache<V>)
    ensures cache.memory == map["b" := w]
    ensures cache.chain == [Link("b", 21)]
    ensures cache.notices == [Notice("a", Observation.Expiration, 10)]
  {
    cache := new TTLCache(map[], None);
    var _ := cache.Set("a", v, 10, 0);
    assert cache.chain == [Link("a", 10)] by {
      assert ExpiredPrefix([], 0) == 0;
      UnlinkAbsent([], "a");
    }
    assert cache.memory == map["a" := v] by {
      assert KeySet([]) == {};
    }
    ghost var c := cache.chain;
    assert ExpiredPrefix(c, 11) == 1;
    assert c[..1] == c && c[1..] == [];
    assert KeySet(c) == {"a"};
    var _ := cache.Set("b", w, 10, 11);
    UnlinkAbsent([], "b");
  }

  /** A read of a key whose link has expired, before any sweep, raises rather than returning the default. */
  lemma GetExpiredRaises<V>(cache: TTLCache<V>, key: Key, now: int)
    requires cache.Valid()
    requires Find(cache.chain, key).Some? && Find(cache.chain, key).value.expire < now
    ensures cache.Get(key, None, now) == Err(ExpiredKeyError)
  {
  }
}
