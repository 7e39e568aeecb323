/**
 * The logical clock of the two timestamp LRU caches
 * (`rlcache/eviction_strategies/lru_cache.py`, `rlcache/baselines/lru_cache.py`):
 * a dict from key to the value of the counter `tm` when the key was last
 * touched, and the victim choice `min(lru.keys(), key=lambda k: lru[k])`.
 */
module Stamps {
  import opened Prelude

  /** Every stamp was handed out before `tm`, and no two keys share one. */
  ghost predicate WellStamped(lru: map<Key, nat>, tm: nat)
  {
    && (forall k :: k in lru ==> lru[k] < tm)
    && (forall a, b :: a in lru && b in lru && a != b ==> lru[a] != lru[b])
  }

  /** `k` has the smallest stamp: it is the least recently touched key. */
  ghost predicate IsLeastRecent(lru: map<Key, nat>, k: Key)
  {
    k in lru && forall j :: j in lru ==> lru[k] <= lru[j]
  }

  /** `lru[key] = tm; tm += 1`: the key gets the current clock value. */
  function Stamp(lru: map<Key, nat>, key: Key, tm: nat): (r: map<Key, nat>)
    ensures r.Keys == lru.Keys + {key} && r[key] == tm
    ensures forall k :: k in lru && k != key ==> r[k] == lru[k]
  {
    lru[key := tm]
  }

  /** Stamping keeps the stamps distinct and below the advanced clock, and makes the key the most recent. */
  lemma StampKeepsWellStamped(lru: map<Key, nat>, key: Key, tm: nat)
    requires WellStamped(lru, tm)
    ensures WellStamped(Stamp(lru, key, tm), tm + 1)
    ensures forall k :: k in Stamp(lru, key, tm) && k != key ==> Stamp(lru, key, tm)[k] < Stamp(lru, key, tm)[key]
  {
  }

  /** Dropping keys keeps the stamps well formed. */
  lemma DropKeepsWellStamped(lru: map<Key, nat>, keys: set<Key>, tm: nat)
    requires WellStamped(lru, tm)
    ensures WellStamped(lru - keys, tm)
  {
  }

  /** With distinct stamps the least recent key is unique, whatever order `min` scans the keys in. */
  lemma LeastRecentUnique(lru: map<Key, nat>, tm: nat, a: Key, b: Key)
    requires WellStamped(lru, tm) && IsLeastRecent(lru, a) && IsLeastRecent(lru, b)
    ensures a == b
  {
  }

  /** `min(lru.keys(), key=lambda k: lru[k])`, or the `ValueError` of `min` over no keys. */
  method LeastRecent(lru: map<Key, nat>) returns (r: Result<Key>)
    ensures r.Err? <==> |lru| == 0
    ensures r.Err? ==> r.error == ValueError
    ensures r.Ok? ==> IsLeastRecent(lru, r.value)
  {
    if |lru| == 0 {
      return Err(ValueError);
    }
    var rest := lru.Keys;
    assert |rest| == |lru|;
    var best :| best in rest;
    rest := rest - {best};
    while rest != {}
      invariant rest <= lru.Keys && best in lru
      invariant forall k :: k in lru && k !in rest ==> lru[best] <= lru[k]
      decreases |rest|
    {
      var k :| k in rest;
      if lru[k] < lru[best] {
        best := k;
      }
      rest := rest - {k};
    }
    r := Ok(best);
  }
}
