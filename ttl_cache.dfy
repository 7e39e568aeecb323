/**
 * `rlcache/backend/ttl_cache.py`: a TTL wrapper around a storage that keeps
 * one link per key in a list ordered by last write.  `expire(time)` deletes
 * keys from the front of the list while their links have expired, calling the
 * registered hook (at most one) for each with the key's value first; it stops
 * at the first live link, so an expired link behind a live one stays, and its
 * key stays readable, until the links in front of it have expired too.
 */
module TtlCache {
  import opened Prelude
  import opened Observation
  import opened Hooks
  import opened Links

  /**
   * The calls the sweep makes for the expired links `expired`, in order, when
   * a hook is registered: each passes the key's value as stored before the
   * sweep (`memory.get(key)`, so `None` for a key the storage does not hold).
   */
  function SweepCalls<V>(hook: Option<HookId>, expired: seq<Link>, memory: map<Key, V>): (r: seq<HookCall<Option<V>>>)
    ensures hook.None? ==> r == []
    ensures hook.Some? ==> |r| == |expired|
    ensures hook.Some? ==> forall j :: 0 <= j < |expired| ==>
              r[j] == HookCall(hook.value, expired[j].key, Expiration, Lookup(memory, expired[j].key, None), expired[j].expire)
  {
    if hook.None? then []
    else seq(|expired|, j requires 0 <= j < |expired| =>
               HookCall(hook.value, expired[j].key, Expiration, Lookup(memory, expired[j].key, None), expired[j].expire))
  }

  /**
   * One turn of the sweep loop, on the link at position `i` of the list the
   * sweep started from: its key is not among those already deleted, deleting
   * it extends the deleted keys, its value is read as originally stored, and
   * its hook call extends the calls made so far.
   */
  lemma SweepTurn<V>(hook: Option<HookId>, chain: seq<Link>, i: nat, memory: map<Key, V>)
    requires i < |chain| && DistinctKeys(chain)
    ensures chain[..i + 1] == chain[..i] + [chain[i]] && chain[i..][1..] == chain[i + 1..]
    ensures DistinctKeys(chain[i + 1..])
    ensures (memory - KeySet(chain[..i])) - {chain[i].key} == memory - KeySet(chain[..i + 1])
    ensures Lookup(memory - KeySet(chain[..i]), chain[i].key, None) == Lookup(memory, chain[i].key, None)
    ensures SweepCalls(hook, chain[..i + 1], memory)
            == SweepCalls(hook, chain[..i], memory)
               + (if hook.Some? then [HookCall(hook.value, chain[i].key, Expiration, Lookup(memory, chain[i].key, None), chain[i].expire)] else [])
  {
    var swept, curr := chain[..i], chain[i];
    assert chain[..i + 1] == swept + [curr];
    assert curr.key !in KeySet(swept);
    assert KeySet(chain[..i + 1]) == KeySet(swept) + {curr.key};
    var full := swept + [curr];
    assert forall j :: 0 <= j < |swept| ==> full[j] == swept[j];
  }

  class TTLCache<V> {
    /** The wrapped storage, by its contents. */
    var memory: map<Key, V>
    /** The links from `root.next` to `root.prev`. */
    var chain: seq<Link>
    var evictHookFunc: Option<HookId>
    /** Every hook call made so far, in order. */
    var hookCalls: seq<HookCall<Option<V>>>

    ghost predicate Valid()
      reads this
    {
      DistinctKeys(chain)
    }

    /** `TTLCache(memory)`: no links and no hook. */
    constructor (memory: map<Key, V>)
      ensures Valid()
      ensures this.memory == memory && chain == [] && evictHookFunc == None && hookCalls == []
    {
      this.memory := memory;
      chain := [];
      evictHookFunc := None;
      hookCalls := [];
    }

    /** `register_hook_func`: the new hook replaces any earlier one. */
    method RegisterHookFunc(hook: HookId)
      modifies this
      ensures evictHookFunc == Some(hook)
      ensures memory == old(memory) && chain == old(chain) && hookCalls == old(hookCalls)
    {
      evictHookFunc := Some(hook);
    }

    /** `expire(time)`. */
    method Expire(now: int)
      requires Valid()
      modifies this
      ensures Valid()
      ensures chain == SweptChain(old(chain), now)
      ensures memory == SweptMemory(old(memory), old(chain), now)
      ensures hookCalls == old(hookCalls)
                           + SweepCalls(evictHookFunc, old(chain)[..ExpiredPrefix(old(chain), now)], old(memory))
      ensures evictHookFunc == old(evictHookFunc)
    {
      ghost var i := 0;
      while |chain| > 0 && Expired(chain[0], now)
        invariant Valid() && evictHookFunc == old(evictHookFunc)
        invariant 0 <= i <= |old(chain)| && chain == old(chain)[i..]
        invariant forall j :: 0 <= j < i ==> Expired(old(chain)[j], now)
        invariant memory == old(memory) - KeySet(old(chain)[..i])
        invariant hookCalls == old(hookCalls) + SweepCalls(evictHookFunc, old(chain)[..i], old(memory))
        decreases |chain|
      {
        var curr := chain[0];
        assert curr == old(chain)[i];
        SweepTurn(evictHookFunc, old(chain), i, old(memory));
        if evictHookFunc.Some? {
          hookCalls := hookCalls + [HookCall(evictHookFunc.value, curr.key, Expiration, Lookup(memory, curr.key, None), curr.expire)];
        }
        memory := memory - {curr.key};
        // `del links[curr.key]` and `curr.unlink()`
        chain := chain[1..];
        i := i + 1;
      }
      assert i == ExpiredPrefix(old(chain), now);
    }

    /** `clear()` at time `now`: sweeps, then empties the storage; the links are left as they are. */
    method Clear(now: int)
      requires Valid()
      modifies this
      ensures Valid()
      ensures memory == map[]
      ensures chain == SweptChain(old(chain), now)
      ensures hookCalls == old(hookCalls)
                           + SweepCalls(evictHookFunc, old(chain)[..ExpiredPrefix(old(chain), now)], old(memory))
      ensures evictHookFunc == old(evictHookFunc)
    {
      Expire(now);
      memory := map[];
    }

    /** `set(key, value, ttl)` at time `now`: sweeps, stores, and links the key at the tail. */
    method Set(key: Key, value: V, ttl: int, now: int) returns (r: bool)
      requires Valid()
      modifies this
      ensures Valid()
      ensures r
      ensures memory == SweptMemory(old(memory), old(chain), now)[key := value]
      ensures chain == Relinked(SweptChain(old(chain), now), key, now + ttl)
      ensures hookCalls == old(hookCalls)
                           + SweepCalls(evictHookFunc, old(chain)[..ExpiredPrefix(old(chain), now)], old(memory))
      ensures evictHookFunc == old(evictHookFunc)
    {
      Expire(now);
      memory := memory[key := value];
      RelinkedDistinct(chain, key, now + ttl);
      chain := Unlink(chain, key) + [Link(key, now + ttl)];
      r := true;
    }

    /**
     * `delete(key)`: deletes the key from storage, then pops its link, which
     * raises `KeyError` when the key is not linked (the storage delete has
     * already happened).
     */
    method Delete(key: Key) returns (r: Result<bool>)
      requires Valid()
      modifies this
      ensures Valid()
      ensures memory == old(memory) - {key}
      ensures Find(old(chain), key).None? ==> r == Err(KeyError) && chain == old(chain)
      ensures Find(old(chain), key).Some? ==> r == Ok(true) && chain == Unlink(old(chain), key)
      ensures Find(old(chain), key).Some? ==> |chain| == |old(chain)| - 1
      ensures evictHookFunc == old(evictHookFunc) && hookCalls == old(hookCalls)
    {
      memory := memory - {key};
      if Find(chain, key).None? {
        return Err(KeyError);
      }
      UnlinkLinked(chain, key);
      chain := Unlink(chain, key);
      r := Ok(true);
    }

    /** `size()`: the storage's size. */
    function Size(): (r: nat)
      reads this
      ensures r == |memory.Keys|
    {
      |memory|
    }

    /** `contains(key)` at time `now`: does not sweep; the key's link must exist and not have expired. */
    function Contains(key: Key, now: int): (r: bool)
      requires Valid()
      reads this
      ensures r <==> Live(chain, key, now)
    {
      match Find(chain, key)
      case None => false
      case Some(link) =>
        !(link.expire < now)
    }

    /** `get(key, default)` at time `now`: sweeps, then reads the storage. */
    method Get(key: Key, default: Option<V>, now: int) returns (r: Option<V>)
      requires Valid()
      modifies this
      ensures Valid()
      ensures r == Lookup(SweptMemory(old(memory), old(chain), now), key, default)
      ensures chain == SweptChain(old(chain), now) && memory == SweptMemory(old(memory), old(chain), now)
      ensures hookCalls == old(hookCalls)
                           + SweepCalls(evictHookFunc, old(chain)[..ExpiredPrefix(old(chain), now)], old(memory))
      ensures evictHookFunc == old(evictHookFunc)
    {
      Expire(now);
      r := Lookup(memory, key, default);
    }

    /** `__len__` at time `now`: the links, less the expired run at the front. */
    method Len(now: int) returns (count: int)
      requires Valid()
      ensures count == |chain| - ExpiredPrefix(chain, now)
    {
      count := |chain|;
      var j := 0;
      while j < |chain| && Expired(chain[j], now)
        invariant 0 <= j <= |chain| && count == |chain| - j
        invariant forall k :: 0 <= k < j ==> Expired(chain[k], now)
      {
        count := count - 1;
        j := j + 1;
      }
    }
  }

  /**
   * An expired link behind a live one is not swept: key "b" expired at 5, but
   * "a" (linked first, expiring at 10) is live at 7, so at time 7 `contains("b")`
   * is false while `get("b")` still reads b's value.
   */
  lemma StaleReadBehindLiveHead<V>(va: V, vb: V)
    ensures var chain := [Link("a", 10), Link("b", 5)];
            var memory := map["a" := va, "b" := vb];
            && !Live(chain, "b", 7)
            && Lookup(SweptMemory(memory, chain, 7), "b", None) == Some(vb)
  {
    var chain := [Link("a", 10), Link("b", 5)];
    var memory := map["a" := va, "b" := vb];
    assert ExpiredPrefix(chain, 7) == 0;
    assert chain[..0] == [];
    assert KeySet([]) == {};
    assert SweptMemory(memory, chain, 7) == memory;
  }

  /** After a sweep at `now`, `__len__` at the same time counts every remaining link. */
  lemma LenAfterSweep(chain: seq<Link>, now: int)
    ensures |SweptChain(chain, now)| - ExpiredPrefix(SweptChain(chain, now), now) == |SweptChain(chain, now)|
  {
    SweepIsIdempotent(chain, now);
  }

  /** A key just set is readable with its value at any time up to its deadline. */
  method ReadBeforeDeadline<V>(cache: TTLCache<V>, key: Key, v: V, ttl: int, t0: int, t1: int)
    returns (r: Option<V>, live: bool)
    requires cache.Valid() && t0 <= t1 <= t0 + ttl
    modifies cache
    ensures r == Some(v) && live
  {
    var _ := cache.Set(key, v, ttl, t0);
    assert cache.chain[|cache.chain| - 1] == Link(key, t0 + ttl);
    TailSurvivesSweep(cache.chain, key, t0 + ttl, t1);
    live := cache.Contains(key, t1);
    r := cache.Get(key, None, t1);
  }
}
