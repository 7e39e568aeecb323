/**
 * The doubly linked list of `_Link` objects that both linked-list TTL caches
 * (`rlcache/backend/ttl_cache.py` and `rlcache/backend/inmemory_ttl.py`) keep
 * behind a sentinel root, read from `root.next` onwards.  A `set` appends the
 * key's link at the tail (unlinking it first if it was linked), so the list is
 * in order of last write, not of expiry.  The `__links` dictionary maps each
 * linked key to its link object; here it is the list itself, looked up by key.
 */
module Links {
  import opened Prelude

  datatype Link = Link(key: Key, expire: int)

  /** The keys of the list, front to back. */
  function Keys(chain: seq<Link>): (r: seq<Key>)
    ensures |r| == |chain| && forall i :: 0 <= i < |chain| ==> r[i] == chain[i].key
  {
    seq(|chain|, i requires 0 <= i < |chain| => chain[i].key)
  }

  function KeySet(chain: seq<Link>): set<Key>
  {
    set l | l in chain :: l.key
  }

  /** No key is linked twice: `__links` holds one link per key. */
  predicate DistinctKeys(chain: seq<Link>)
  {
    forall i, j :: 0 <= i < j < |chain| ==> chain[i].key != chain[j].key
  }

  /** `__links[key]`: the link of `key`, if it is linked. */
  function Find(chain: seq<Link>, key: Key): (r: Option<Link>)
    ensures r.Some? <==> exists i :: 0 <= i < |chain| && chain[i].key == key
    ensures r.Some? ==> r.value in chain && r.value.key == key
  {
    if |chain| == 0 then None
    else if chain[0].key == key then Some(chain[0])
    else
      var r := Find(chain[1..], key);
      assert forall i :: 1 <= i < |chain| ==> chain[i] == chain[1..][i - 1];
      r
  }

  /** `link.unlink()` on the link of `key`: the list without it, everything else in order. */
  function Unlink(chain: seq<Link>, key: Key): (r: seq<Link>)
    ensures forall l :: l in r <==> l in chain && l.key != key
    ensures IsSubsequence(r, chain)
    ensures DistinctKeys(chain) ==> DistinctKeys(r)
    ensures |r| <= |chain|
  {
    if |chain| == 0 then []
    else if chain[0].key == key then Unlink(chain[1..], key)
    else
      var rest := Unlink(chain[1..], key);
      assert DistinctKeys(chain) ==> DistinctKeys(chain[1..]);
      [chain[0]] + rest
  }

  /** `a` is `b` with some elements left out, the rest in their order. */
  ghost predicate IsSubsequence<T>(a: seq<T>, b: seq<T>)
    decreases |b|
  {
    |a| == 0 || (|b| > 0 && if a[0] == b[0] then IsSubsequence(a[1..], b[1..]) else IsSubsequence(a, b[1..]))
  }

  /** Unlinking a key that is linked once removes exactly one link. */
  lemma {:induction false} UnlinkLinked(chain: seq<Link>, key: Key)
    requires DistinctKeys(chain) && Find(chain, key).Some?
    ensures |Unlink(chain, key)| == |chain| - 1
  {
    if chain[0].key == key {
      UnlinkAbsent(chain[1..], key);
    } else {
      assert DistinctKeys(chain[1..]);
      assert Find(chain[1..], key).Some?;
      UnlinkLinked(chain[1..], key);
    }
  }

  /** Unlinking a key that is not linked changes nothing. */
  lemma {:induction false} UnlinkAbsent(chain: seq<Link>, key: Key)
    requires Find(chain, key).None?
    ensures Unlink(chain, key) == chain
  {
    if |chain| > 0 {
      assert chain[0].key != key;
      UnlinkAbsent(chain[1..], key);
      assert chain == [chain[0]] + chain[1..];
    }
  }

  /** `link.expire < time`: a link whose expiry time has passed. */
  predicate Expired(l: Link, now: int)
  {
    l.expire < now
  }

  /**
   * How many links the `while curr is not root and curr.expire < time` loops
   * of `expire` and `__len__` walk past: the longest expired run at the front.
   */
  function ExpiredPrefix(chain: seq<Link>, now: int): (n: nat)
    ensures n <= |chain|
    ensures forall i :: 0 <= i < n ==> Expired(chain[i], now)
    ensures n < |chain| ==> !Expired(chain[n], now)
  {
    if |chain| == 0 || !Expired(chain[0], now) then 0
    else
      var n := ExpiredPrefix(chain[1..], now);
      assert forall i :: 1 <= i <= n ==> chain[i] == chain[1..][i - 1];
      1 + n
  }

  /** Links appended in order of expiry: what a fixed TTL and a clock that never runs back produce. */
  predicate SortedByExpiry(chain: seq<Link>)
  {
    forall i, j :: 0 <= i < j < |chain| ==> chain[i].expire <= chain[j].expire
  }

  /** On a list sorted by expiry the front run is every expired link: nothing expired survives behind it. */
  lemma SortedPrefixIsAllExpired(chain: seq<Link>, now: int)
    requires SortedByExpiry(chain)
    ensures forall i :: ExpiredPrefix(chain, now) <= i < |chain| ==> !Expired(chain[i], now)
  {
  }

  /** Re-linking a key at the tail with an expiry no earlier than any linked one keeps the list sorted. */
  lemma RelinkKeepsSorted(chain: seq<Link>, key: Key, expire: int)
    requires SortedByExpiry(chain)
    requires forall l :: l in chain ==> l.expire <= expire
    ensures SortedByExpiry(Unlink(chain, key) + [Link(key, expire)])
  {
    var r := Unlink(chain, key);
    UnlinkKeepsSorted(chain, key);
    assert forall i :: 0 <= i < |r| ==> r[i] in chain;
  }

  lemma {:induction false} UnlinkKeepsSorted(chain: seq<Link>, key: Key)
    requires SortedByExpiry(chain)
    ensures SortedByExpiry(Unlink(chain, key))
  {
    if |chain| > 0 {
      assert SortedByExpiry(chain[1..]);
      UnlinkKeepsSorted(chain[1..], key);
      var rest := Unlink(chain[1..], key);
      if chain[0].key != key {
        forall l | l in rest
          ensures chain[0].expire <= l.expire
        {
          var i :| 0 <= i < |chain[1..]| && chain[1..][i] == l;
          assert chain[i + 1] == l;
        }
      }
    }
  }

  /**
   * The front run of a list is dropped by the sweep; what remains has no
   * expired front link: sweeping again at the same time removes nothing.
   */
  lemma SweepIsIdempotent(chain: seq<Link>, now: int)
    ensures ExpiredPrefix(chain[ExpiredPrefix(chain, now)..], now) == 0
  {
    var n := ExpiredPrefix(chain, now);
    if n < |chain| {
      assert chain[n..][0] == chain[n];
    }
  }

  /** What the sweep of `expire(now)` leaves linked: everything behind the expired front run. */
  function SweptChain(chain: seq<Link>, now: int): seq<Link>
  {
    chain[ExpiredPrefix(chain, now)..]
  }

  /** The storage after the sweep of `expire(now)`: the keys of the expired front run are deleted. */
  function SweptMemory<V>(memory: map<Key, V>, chain: seq<Link>, now: int): map<Key, V>
  {
    memory - KeySet(chain[..ExpiredPrefix(chain, now)])
  }

  /** `contains(key)` at time `now`: the key is linked and its link has not expired. */
  predicate Live(chain: seq<Link>, key: Key, now: int)
  {
    exists i :: 0 <= i < |chain| && chain[i].key == key && !Expired(chain[i], now)
  }

  /** The list after `set(key, ...)` gives the key the expiry `expire`: its link moves to the tail. */
  function Relinked(chain: seq<Link>, key: Key, expire: int): seq<Link>
  {
    Unlink(chain, key) + [Link(key, expire)]
  }

  /** Re-linking keeps one link per key. */
  lemma RelinkedDistinct(chain: seq<Link>, key: Key, expire: int)
    requires DistinctKeys(chain)
    ensures DistinctKeys(Relinked(chain, key, expire))
  {
    var r := Unlink(chain, key);
    assert forall i :: 0 <= i < |r| ==> r[i] in r;
  }

  /** Right after a `set`, the key is live exactly until its new expiry time. */
  lemma RelinkedLiveUntilExpiry(chain: seq<Link>, key: Key, expire: int, now: int)
    requires DistinctKeys(chain)
    ensures Live(Relinked(chain, key, expire), key, now) <==> now <= expire
  {
    var r := Relinked(chain, key, expire);
    RelinkedDistinct(chain, key, expire);
    var last := |r| - 1;
    assert r[last] == Link(key, expire);
    if Live(r, key, now) {
      var i :| 0 <= i < |r| && r[i].key == key && !Expired(r[i], now);
      assert i == last;
    }
  }

  /** The link just put at the tail survives a sweep up to its expiry: the key stays live and is not swept. */
  lemma TailSurvivesSweep(chain: seq<Link>, key: Key, expire: int, now: int)
    requires DistinctKeys(chain) && |chain| > 0 && chain[|chain| - 1] == Link(key, expire) && now <= expire
    ensures Live(chain, key, now)
    ensures key !in KeySet(chain[..ExpiredPrefix(chain, now)])
  {
    var last := |chain| - 1;
    assert !Expired(chain[last], now);
  }

  /** Re-linking one key leaves the liveness of every other key as it was. */
  lemma RelinkedOthersUnchanged(chain: seq<Link>, key: Key, expire: int, other: Key, now: int)
    requires other != key
    ensures Live(Relinked(chain, key, expire), other, now) <==> Live(chain, other, now)
  {
    var u := Unlink(chain, key);
    var r := Relinked(chain, key, expire);
    if Live(chain, other, now) {
      var i :| 0 <= i < |chain| && chain[i].key == other && !Expired(chain[i], now);
      assert chain[i] in u;
      var j :| 0 <= j < |u| && u[j] == chain[i];
      assert r[j] == u[j];
    }
    if Live(r, other, now) {
      var j :| 0 <= j < |r| && r[j].key == other && !Expired(r[j], now);
      assert j < |u| && r[j] == u[j] && u[j] in chain;
    }
  }
}
