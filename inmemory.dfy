/**
 * `rlcache/backend/inmemory.py`: a dictionary of `(value, expiration)` entries
 * with a capacity.  Its `set` refuses only once the dictionary already holds
 * MORE than `capacity` entries, so it can hold `capacity + 1`; its `get` reads
 * the entry before checking that it exists, so an absent key raises.
 */
module InMemory {
  import opened Prelude
  import StorageBase

  datatype CachedEntry<V> = CachedEntry(value: V, expiration: int)

  /** The default `ttl` of `set`. */
  const DefaultTtl: int := 500

  /** The most entries `set` ever lets the dictionary reach. */
  function Bound(capacity: Option<int>): nat
  {
    if capacity.None? || capacity.value < 0 then 0 else capacity.value + 1
  }

  /** Whether `set` raises: `len(memory) > None` and `raise False` are both `TypeError`s. */
  predicate SetRefused(capacity: Option<int>, size: nat)
  {
    capacity.None? || size > capacity.value
  }

  /** The dictionary after `set(key, value, ttl)` at time `now`, or the error. */
  function Stored<V>(memory: map<Key, CachedEntry<V>>, capacity: Option<int>,
                     key: Key, value: V, ttl: int, now: nat): (r: Result<map<Key, CachedEntry<V>>>)
    ensures r.Err? <==> SetRefused(capacity, |memory|)
    ensures r.Err? ==> r.error == TypeError
    ensures r.Ok? ==> r.value.Keys == memory.Keys + {key}
    ensures r.Ok? ==> r.value[key] == CachedEntry(value, now + ttl)
    ensures r.Ok? ==> forall k :: k in memory && k != key ==> r.value[k] == memory[k]
  {
    if SetRefused(capacity, |memory|) then Err(TypeError)
    else Ok(memory[key := CachedEntry(value, now + ttl)])
  }

  /** A successful `set` keeps the dictionary within `Bound(capacity)`. */
  lemma StoredWithinBound<V>(memory: map<Key, CachedEntry<V>>, capacity: Option<int>,
                             key: Key, value: V, ttl: int, now: nat)
    requires Stored(memory, capacity, key, value, ttl, now).Ok?
    ensures |Stored(memory, capacity, key, value, ttl, now).value| <= Bound(capacity)
  {
    var m := memory[key := CachedEntry(value, now + ttl)];
    if key in memory {
      assert m.Keys == memory.Keys;
    } else {
      assert |m| == |memory| + 1;
    }
  }

  /** A storage of capacity 1 accepts a second distinct key: it is not refused at size 1. */
  lemma CapacityExceededByOne<V>(v: V)
    ensures var m := map["a" := CachedEntry(v, 0)];
            Stored(m, Some(1), "b", v, 0, 0).Ok? && |Stored(m, Some(1), "b", v, 0, 0).value| == 2
  {
    var m := map["a" := CachedEntry(v, 0)];
    var m2 := m["b" := CachedEntry(v, 0)];
    assert m2.Keys == {"a", "b"};
  }

  class InMemoryStorage<V> {
    const capacity: Option<int>
    var memory: map<Key, CachedEntry<V>>

    ghost predicate Valid()
      reads this
    {
      |memory| <= Bound(capacity)
    }

    /** `InMemoryStorage(capacity)`: an empty dictionary; the default capacity of 1024 is not modelled, so the capacity is always given. */
    constructor (capacity: Option<int>)
      ensures Valid()
      ensures this.capacity == capacity && memory == map[]
    {
      this.capacity := capacity;
      memory := map[];
    }

    /**
     * `get(key, default)` at time `now`: an absent key raises `KeyError`; an
     * entry past its expiration is deleted and `default` returned.
     */
    method Get(key: Key, default: Option<V>, now: nat) returns (r: Result<Option<V>>)
      requires Valid()
      modifies this
      ensures Valid()
      ensures key !in old(memory) ==> r == Err(KeyError) && memory == old(memory)
      ensures key in old(memory) && now > old(memory)[key].expiration ==>
                r == Ok(default) && memory == old(memory) - {key}
      ensures key in old(memory) && now <= old(memory)[key].expiration ==>
                r == Ok(Some(old(memory)[key].value)) && memory == old(memory)
    {
      if key !in memory {
        return Err(KeyError);
      }
      if now > memory[key].expiration {
        var _ := Delete(key);
      }
      if key in memory {
        r := Ok(Some(memory[key].value));
      } else {
        r := Ok(default);
      }
    }

    /** `set(key, value, ttl)` at time `now`. */
    method Set(key: Key, value: V, ttl: int, now: nat) returns (r: Result<bool>)
      requires Valid()
      modifies this
      ensures Valid()
      ensures var s := Stored(old(memory), capacity, key, value, ttl, now);
              if s.Ok? then r == Ok(true) && memory == s.value
              else r == Err(s.error) && memory == old(memory)
    {
      if SetRefused(capacity, |memory|) {
        return Err(TypeError);
      }
      StoredWithinBound(memory, capacity, key, value, ttl, now);
      memory := memory[key := CachedEntry(value, now + ttl)];
      r := Ok(true);
    }

    /** `delete(key)`: whether the key was present; it is gone afterwards. */
    method Delete(key: Key) returns (r: bool)
      requires Valid()
      modifies this
      ensures Valid()
      ensures r == (key in old(memory))
      ensures memory == old(memory) - {key}
    {
      r := key in memory;
      if r {
        memory := memory - {key};
      }
    }

    /** `clear()`: empties the dictionary and answers `True`. */
    method Clear() returns (r: bool)
      requires Valid()
      modifies this
      ensures Valid()
      ensures r && memory == map[]
    {
      memory := map[];
      r := true;
    }

    /** `size()`: every stored entry counts, expired or not. */
    function Size(): (r: nat)
      reads this
      ensures r == |memory.Keys|
    {
      |memory|
    }

    /** `contains(key)`: presence only; expiration is not consulted. */
    function Contains(key: Key): (r: bool)
      reads this
      ensures r <==> key in memory.Keys
    {
      key in memory
    }

    /** `is_full()`, inherited from `Storage`: no room for one more entry. */
    function IsFull(): (r: bool)
      reads this
      ensures r <==> capacity.Some? && |memory| >= capacity.value
    {
      StorageBase.IsFull(capacity, |memory|)
    }

    /** `key in storage` (`__contains__`). */
    function ContainsItem(key: Key): (r: bool)
      reads this
      ensures r <==> key in memory.Keys
    {
      Contains(key)
    }

    /** `len(storage)` (`__len__`). */
    function Len(): (r: nat)
      reads this
      ensures r == |memory.Keys|
    {
      Size()
    }

    /** `storage[key] = value` (`__setitem__`): `set` with its default ttl. */
    method SetItem(key: Key, value: V, now: nat) returns (r: Result<bool>)
      requires Valid()
      modifies this
      ensures Valid()
      ensures var s := Stored(old(memory), capacity, key, value, DefaultTtl, now);
              if s.Ok? then r == Ok(true) && memory == s.value
              else r == Err(s.error) && memory == old(memory)
    {
      r := Set(key, value, DefaultTtl, now);
    }

    /** `storage[key]` (`__getitem__`): `get` with default `None`. */
    method GetItem(key: Key, now: nat) returns (r: Result<Option<V>>)
      requires Valid()
      modifies this
      ensures Valid()
      ensures key !in old(memory) ==> r == Err(KeyError) && memory == old(memory)
      ensures key in old(memory) && now > old(memory)[key].expiration ==>
                r == Ok(None) && memory == old(memory) - {key}
      ensures key in old(memory) && now <= old(memory)[key].expiration ==>
                r == Ok(Some(old(memory)[key].value)) && memory == old(memory)
    {
      r := Get(key, None, now);
    }

    /** `del storage[key]` (`__delitem__`). */
    method DelItem(key: Key) returns (r: bool)
      requires Valid()
      modifies this
      ensures Valid()
      ensures r == (key in old(memory))
      ensures memory == old(memory) - {key}
    {
      r := Delete(key);
    }
  }
}
