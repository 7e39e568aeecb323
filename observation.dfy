/**
 * The event kinds of `rlcache/observer.py`: the six lifecycle events that the
 * TTL stores and the strategies exchange.  Python's `Enum` members carry the
 * integer values 1..6; `Value` and `FromValue` give that encoding, which the
 * reinforcement-learning states store in their integer `step_code` fields.
 */
module Observation {
  import opened Prelude

  datatype ObservationType = Hit | Miss | Invalidate | Expiration | EvictionPolicy | Write
  {
    /** The member's `.value`. */
    function Value(): int
    {
      match this
      case Hit => 1
      case Miss => 2
      case Invalidate => 3
      case Expiration => 4
      case EvictionPolicy => 5
      case Write => 6
    }
  }

  /** `ObservationType(v)`: the member whose value is `v`, if any. */
  function FromValue(v: int): (r: Option<ObservationType>)
    ensures r.Some? <==> 1 <= v <= 6
    ensures r.Some? ==> r.value.Value() == v
  {
    if v == 1 then Some(Hit)
    else if v == 2 then Some(Miss)
    else if v == 3 then Some(Invalidate)
    else if v == 4 then Some(Expiration)
    else if v == 5 then Some(EvictionPolicy)
    else if v == 6 then Some(Write)
    else None
  }

  /** The encoding is one-to-one: decoding a member's value gives the member back. */
  lemma ValueRoundTrip(t: ObservationType)
    ensures FromValue(t.Value()) == Some(t)
    ensures 1 <= t.Value() <= 6
  {
  }

  /** Two members share a value only if they are the same member. */
  lemma ValueInjective(s: ObservationType, t: ObservationType)
    ensures s.Value() == t.Value() ==> s == t
  {
    ValueRoundTrip(s);
    ValueRoundTrip(t);
  }
}

/**
 * `rlcache/cache_constants.py`: the status with which the cache manager offers
 * a value to its caching strategy.
 */
module CacheConstants {
  datatype CacheStatus = Hit | Miss | Invalidation | New
  {
    /** The member's `.value`. */
    function Value(): (v: int)
      ensures 0 <= v <= 3
      ensures this == Hit ==> v == 0
      ensures this == Miss ==> v == 1
      ensures this == Invalidation ==> v == 2
      ensures this == New ==> v == 3
    {
      match this
      case Hit => 0
      case Miss => 1
      case Invalidation => 2
      case New => 3
    }
  }

  /** Distinct statuses carry distinct values. */
  lemma ValueInjective(s: CacheStatus, t: CacheStatus)
    ensures s.Value() == t.Value() ==> s == t
  {
  }
}

/**
 * Eviction hooks: the callables that the TTL caches call with
 * `(key, ObservationType.Expiration, {'value': ..., 'expire_at': ...})` when an
 * entry expires.  A hook is identified by a number; a call is recorded, in order,
 * as the arguments it received.
 */
module Hooks {
  import opened Prelude
  import opened Observation

  type HookId = nat

  datatype HookCall<V> = HookCall(hook: HookId, key: Key, kind: ObservationType, value: V, expireAt: int)

  /** The calls `for hook in hooks: hook(key, Expiration, {...})` makes, in registration order. */
  function ExpirationCalls<V>(hooks: seq<HookId>, key: Key, value: V, expireAt: int): (r: seq<HookCall<V>>)
    ensures |r| == |hooks|
    ensures forall j :: 0 <= j < |hooks| ==> r[j] == HookCall(hooks[j], key, Expiration, value, expireAt)
  {
    seq(|hooks|, j requires 0 <= j < |hooks| => HookCall(hooks[j], key, Expiration, value, expireAt))
  }
}
