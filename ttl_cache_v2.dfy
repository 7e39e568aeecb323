/**
 * `rlcache/backend/ttl_cache_v2.py`: a TTL wrapper around a storage that keeps
 * one expiration entry per key in a binary heap ordered by eviction time, plus
 * an index from each key to its entry.  Re-setting a key re-times its entry in
 * place; `expire` walks the heap list from the front while popping it.
 *
 * The heap holds keys: the entry of a key is `keyToExpirationItem[key]`.  An
 * entry object is created once per key and never replaced, so the key names
 * the object and the in-place update of line 68-69 is an update of the index.
 */
module TtlCacheV2 {
  import opened Prelude
  import opened Observation
  import opened Hooks
  import HeapQ

  /** `_ExpirationListEntry`; `key` takes no part in comparisons. */
  datatype ExpirationListEntry = ExpirationListEntry(evictionTime: int, dirtyDelete: bool, key: Key)

  /**
   * The order the heap needs, as an ordered dataclass would compare entries:
   * the tuples `(eviction_time, dirty_delete)` lexicographically.
   */
  predicate EntryLess(a: ExpirationListEntry, b: ExpirationListEntry)
  {
    a.evictionTime < b.evictionTime || (a.evictionTime == b.evictionTime && !a.dirtyDelete && b.dirtyDelete)
  }

  /** The heap order on keys, through the index. */
  function Before(index: map<Key, ExpirationListEntry>): (Key, Key) -> bool
  {
    (a: Key, b: Key) => a in index && b in index && EntryLess(index[a], index[b])
  }

  /** The order is a strict weak order on the keys of the index, so `heapq` keeps a heap with it. */
  lemma BeforeIsStrictWeakOrder(index: map<Key, ExpirationListEntry>, a: Key, b: Key, c: Key)
    requires a in index && b in index && c in index
    ensures !Before(index)(a, a)
    ensures Before(index)(a, b) && Before(index)(b, c) ==> Before(index)(a, c)
    ensures !Before(index)(a, b) && !Before(index)(b, c) ==> !Before(index)(a, c)
  {
    var less := Before(index);
    assert less(a, a) == EntryLess(index[a], index[a]);
    assert less(a, b) == EntryLess(index[a], index[b]);
    assert less(b, c) == EntryLess(index[b], index[c]);
    assert less(a, c) == EntryLess(index[a], index[c]);
  }

  /**
   * `heapq.heappush` with the entry class as declared: a plain `@dataclass`
   * defines no `<`, so as soon as the new entry has a parent to compare with
   * the push raises `TypeError`, after the list has already been appended to.
   */
  function PushAsWritten(heap: seq<Key>, key: Key): (r: (seq<Key>, Outcome))
    ensures r.0 == heap + [key]
    ensures r.1.Raised? <==> |heap| > 0
  {
    (heap + [key], if |heap| == 0 then Done else Raised(TypeError))
  }

  /** Two keys set one after the other: the second `set` raises, while the corrected push succeeds. */
  lemma SecondPushRaises(index: map<Key, ExpirationListEntry>)
    requires "a" in index && "b" in index
    ensures PushAsWritten(["a"], "b").1 == Raised(TypeError)
    ensures multiset(HeapQ.Push(["a"], "b", Before(index))) == multiset{"a", "b"}
  {
  }

  /** Every key in the heap has an entry in the index. */
  ghost predicate Indexed(heap: seq<Key>, index: map<Key, ExpirationListEntry>)
  {
    forall i :: 0 <= i < |heap| ==> heap[i] in index
  }

  /** The heap holds each key at most once. */
  ghost predicate Distinct(heap: seq<Key>)
  {
    forall k :: multiset(heap)[k] <= 1
  }

  lemma DistinctShrinks(a: seq<Key>, b: seq<Key>)
    requires multiset(a) <= multiset(b) && Distinct(b)
    ensures Distinct(a)
  {
    forall k
      ensures multiset(a)[k] <= 1
    {
      assert multiset(a)[k] <= multiset(b)[k];
    }
  }

  /** Each entry records the key it is filed under. */
  ghost predicate Keyed(index: map<Key, ExpirationListEntry>)
  {
    forall k :: k in index ==> index[k].key == k
  }

  /** The part of the state that `expire` changes. */
  datatype SweepState<V> = SweepState(memory: map<Key, V>, heap: seq<Key>, calls: seq<HookCall<V>>)

  lemma PopKeepsIndexed(heap: seq<Key>, index: map<Key, ExpirationListEntry>)
    requires |heap| > 0 && Indexed(heap, index)
    ensures Indexed(HeapQ.Pop(heap, Before(index)).1, index)
  {
    var r := HeapQ.Pop(heap, Before(index)).1;
    forall i | 0 <= i < |r|
      ensures r[i] in index
    {
      assert r[i] in r;
    }
  }

  /**
   * One turn of the `for` loop of `expire` on a due entry at position `i`: a
   * clean entry whose key is still stored fires the hooks and deletes the key;
   * then the root of the heap is popped (not necessarily the entry just read).
   */
  function Step<V>(s: SweepState<V>, index: map<Key, ExpirationListEntry>, hooks: seq<HookId>, i: nat)
    : (r: SweepState<V>)
    requires Indexed(s.heap, index) && i < |s.heap|
    ensures Indexed(r.heap, index) && |r.heap| == |s.heap| - 1
    ensures multiset(r.heap) <= multiset(s.heap)
    ensures r.memory == Expired(s.memory, s.heap[i], index[s.heap[i]])
    ensures s.calls <= r.calls
  {
    var key := s.heap[i];
    var entry := index[key];
    SweepState(Expired(s.memory, key, entry), PopRest(s.heap, index), Fired(s.memory, s.calls, hooks, key, entry))
  }

  /** Whether the loop expires `key` on reaching its entry: the entry is clean and the key still stored. */
  predicate Fires<V>(memory: map<Key, V>, key: Key, entry: ExpirationListEntry)
  {
    !entry.dirtyDelete && key in memory
  }

  /** The storage after the loop reaches the due entry of `key`. */
  function Expired<V>(memory: map<Key, V>, key: Key, entry: ExpirationListEntry): (r: map<Key, V>)
    ensures r.Keys <= memory.Keys && forall k :: k in r ==> r[k] == memory[k]
    ensures forall k :: k in memory && k !in r ==> k == key && !entry.dirtyDelete
  {
    if Fires(memory, key, entry) then memory - {key} else memory
  }

  /** The hook calls after the loop reaches the due entry of `key`. */
  function Fired<V>(memory: map<Key, V>, calls: seq<HookCall<V>>, hooks: seq<HookId>, key: Key,
                    entry: ExpirationListEntry): (r: seq<HookCall<V>>)
    ensures calls <= r
  {
    if Fires(memory, key, entry) then calls + ExpirationCalls(hooks, key, memory[key], entry.evictionTime) else calls
  }

  /** The list `heappop` leaves behind. */
  function PopRest(heap: seq<Key>, index: map<Key, ExpirationListEntry>): (r: seq<Key>)
    requires |heap| > 0 && Indexed(heap, index)
    ensures Indexed(r, index) && |r| == |heap| - 1
    ensures multiset(r) <= multiset(heap)
  {
    PopKeepsIndexed(heap, index);
    HeapQ.Pop(heap, Before(index)).1
  }

  /**
   * `expire(now)` from loop position `i`: the `for` loop reads `heap[i]`,
   * stops at the first entry not yet due, and otherwise takes a `Step` and
   * moves on to position `i + 1` of the shortened list.
   */
  function Sweep<V>(s: SweepState<V>, index: map<Key, ExpirationListEntry>, hooks: seq<HookId>,
                    now: int, i: nat): (r: SweepState<V>)
    requires Indexed(s.heap, index)
    ensures i >= |s.heap| || now < index[s.heap[i]].evictionTime ==> r == s
    ensures s.calls <= r.calls
    decreases |s.heap| - i
  {
    if i >= |s.heap| || now < index[s.heap[i]].evictionTime then s
    else
      var t := Step(s, index, hooks, i);
      var r := Sweep(t, index, hooks, now, i + 1);
      PrefixTransitive(s.calls, t.calls, r.calls);
      r
  }

  /** A stored key whose entry is not due (or that has no entry) survives a sweep with its value. */
  lemma {:induction false} SweepKeepsUndue<V>(s: SweepState<V>, index: map<Key, ExpirationListEntry>,
                                              hooks: seq<HookId>, now: int, i: nat, k: Key)
    requires Indexed(s.heap, index)
    requires k in s.memory && (k !in index || now < index[k].evictionTime)
    ensures var r := Sweep(s, index, hooks, now, i); k in r.memory && r.memory[k] == s.memory[k]
    decreases |s.heap| - i
  {
    if i < |s.heap| && index[s.heap[i]].evictionTime <= now {
      var t := Step(s, index, hooks, i);
      assert k != s.heap[i];
      assert k in t.memory && t.memory[k] == s.memory[k];
      SweepKeepsUndue(t, index, hooks, now, i + 1, k);
      assert Sweep(s, index, hooks, now, i) == Sweep(t, index, hooks, now, i + 1);
    }
  }

  /**
   * A sweep only removes keys, never alters a surviving value, and every key
   * it removes had a clean entry that was due at `now`.
   */
  lemma {:induction false} SweepOnlyExpires<V>(s: SweepState<V>, index: map<Key, ExpirationListEntry>,
                                               hooks: seq<HookId>, now: int, i: nat)
    requires Indexed(s.heap, index)
    ensures OnlyExpires(s.memory, Sweep(s, index, hooks, now, i).memory, index, now)
    decreases |s.heap| - i
  {
    if i < |s.heap| && index[s.heap[i]].evictionTime <= now {
      var t := Step(s, index, hooks, i);
      SweepOnlyExpires(t, index, hooks, now, i + 1);
      var r := Sweep(t, index, hooks, now, i + 1);
      assert Sweep(s, index, hooks, now, i) == r;
      ExpiryComposes(s.memory, t.memory, r.memory, s.heap[i], index, now);
    }
  }

  /** Only removes keys whose clean entries are due at `now`, never alters a value that stays. */
  ghost predicate OnlyExpires<V>(before: map<Key, V>, after: map<Key, V>, index: map<Key, ExpirationListEntry>, now: int)
  {
    && after.Keys <= before.Keys
    && (forall k :: k in after ==> after[k] == before[k])
    && (forall k :: k in before && k !in after ==>
          k in index && index[k].evictionTime <= now && !index[k].dirtyDelete)
  }

  /** One step at a due entry followed by the rest of a sweep still only expires. */
  lemma ExpiryComposes<V>(m0: map<Key, V>, m1: map<Key, V>, m2: map<Key, V>, key: Key,
                          index: map<Key, ExpirationListEntry>, now: int)
    requires key in index && index[key].evictionTime <= now
    requires m1 == Expired(m0, key, index[key])
    requires OnlyExpires(m1, m2, index, now)
    ensures OnlyExpires(m0, m2, index, now)
  {
  }

  /** A sweep at a due entry is a step followed by the sweep from the next position. */
  lemma SweepUnfold<V>(s: SweepState<V>, index: map<Key, ExpirationListEntry>, hooks: seq<HookId>, now: int, i: nat)
    requires Indexed(s.heap, index) && i < |s.heap| && index[s.heap[i]].evictionTime <= now
    ensures Sweep(s, index, hooks, now, i) == Sweep(Step(s, index, hooks, i), index, hooks, now, i + 1)
  {
  }

  lemma PrefixTransitive<T>(a: seq<T>, b: seq<T>, c: seq<T>)
    requires a <= b && b <= c
    ensures a <= c
  {
    assert c[..|a|] == b[..|a|];
  }

  /** A stored key with no entry left in the heap is never expired, whatever its index entry says. */
  lemma {:induction false} SweepKeepsUnqueued<V>(s: SweepState<V>, index: map<Key, ExpirationListEntry>,
                                                 hooks: seq<HookId>, now: int, i: nat, k: Key)
    requires Indexed(s.heap, index)
    requires k in s.memory && k !in s.heap
    ensures k in Sweep(s, index, hooks, now, i).memory
    decreases |s.heap| - i
  {
    if i < |s.heap| && index[s.heap[i]].evictionTime <= now {
      var t := Step(s, index, hooks, i);
      assert k != s.heap[i];
      assert k in t.memory;
      assert k !in t.heap by {
        assert multiset(t.heap)[k] <= multiset(s.heap)[k] == 0;
      }
      SweepKeepsUnqueued(t, index, hooks, now, i + 1, k);
      assert Sweep(s, index, hooks, now, i) == Sweep(t, index, hooks, now, i + 1);
    }
  }

  /**
   * When the root of the heap is due and clean and its key is stored, the
   * sweep deletes the key and the first calls it makes are every hook's, in
   * registration order, with the key, its value and the eviction time.
   */
  lemma DueRootExpires<V>(s: SweepState<V>, index: map<Key, ExpirationListEntry>, hooks: seq<HookId>, now: int)
    requires Indexed(s.heap, index) && |s.heap| > 0
    requires var k := s.heap[0]; k in s.memory && index[k].evictionTime <= now && !index[k].dirtyDelete
    ensures var k := s.heap[0]; var r := Sweep(s, index, hooks, now, 0);
            && k !in r.memory
            && s.calls + ExpirationCalls(hooks, k, s.memory[k], index[k].evictionTime) <= r.calls
  {
    var t := Step(s, index, hooks, 0);
    SweepOnlyExpires(t, index, hooks, now, 1);
  }

  /** A sweep over a one-entry heap whose entry is due takes one step and empties the heap. */
  lemma SweepSingleDue<V>(s: SweepState<V>, index: map<Key, ExpirationListEntry>, hooks: seq<HookId>, now: int)
    requires |s.heap| == 1 && s.heap[0] in index && index[s.heap[0]].evictionTime <= now
    ensures Sweep(s, index, hooks, now, 0) == Step(s, index, hooks, 0)
    ensures Step(s, index, hooks, 0).heap == []
  {
  }

  /** The index of the three-key example below: clean entries due at 1, 2 and 3. */
  function ThreeEntries(): map<Key, ExpirationListEntry>
  {
    map["a" := ExpirationListEntry(1, false, "a"),
        "b" := ExpirationListEntry(2, false, "b"),
        "c" := ExpirationListEntry(3, false, "c")]
  }

  /** Popping `["a", "b", "c"]` moves "c" to the root and sifts it below "b". */
  lemma PopThree()
    ensures Indexed(["a", "b", "c"], ThreeEntries())
    ensures PopRest(["a", "b", "c"], ThreeEntries()) == ["b", "c"]
  {
    var less := Before(ThreeEntries());
    assert ["a", "b", "c"][..2] == ["a", "b"];
    assert ["a", "b"][0 := "c"] == ["c", "b"];
    assert HeapQ.Swap(["c", "b"], 0, 1) == ["b", "c"];
    assert "b" in ThreeEntries() && "c" in ThreeEntries();
    assert less("c", "b") == EntryLess(ThreeEntries()["c"], ThreeEntries()["b"]);
    assert ThreeEntries()["b"].evictionTime == 2 && ThreeEntries()["c"].evictionTime == 3;
    assert HeapQ.SiftDown(["b", "c"], 1, less) == ["b", "c"];
    assert HeapQ.SiftUp(["b", "c"], 1, less) == ["b", "c"];
    assert HeapQ.SiftUp(["c", "b"], 0, less) == ["b", "c"];
  }

  lemma PopTwo()
    ensures Indexed(["b", "c"], ThreeEntries())
    ensures PopRest(["b", "c"], ThreeEntries()) == ["c"]
  {
    assert ["b", "c"][..1] == ["b"];
    assert ["b"][0 := "c"] == ["c"];
  }

  /**
   * The loop's position advances while the list shrinks from the front: with
   * three clean entries due at 1, 2 and 3, a sweep at time 10 expires the
   * first and the third key and leaves the second in storage, its entry popped
   * without the key being deleted.
   */
  lemma SweepSkipsEntries<V>(va: V, vb: V, vc: V)
    ensures Indexed(["a", "b", "c"], ThreeEntries())
    ensures var r := Sweep(SweepState(map["a" := va, "b" := vb, "c" := vc], ["a", "b", "c"], []),
                           ThreeEntries(), [], 10, 0);
            r.memory == map["b" := vb] && r.heap == ["c"]
  {
    var index := ThreeEntries();
    var s0 := SweepState(map["a" := va, "b" := vb, "c" := vc], ["a", "b", "c"], []);
    var s1 := SweepState(map["b" := vb, "c" := vc], ["b", "c"], []);
    var s2 := SweepState(map["b" := vb], ["c"], []);
    PopThree();
    PopTwo();
    // position 0 reads "a", which is due: "a" is deleted and the root "a" popped
    assert Expired(s0.memory, "a", index["a"]) == s1.memory;
    assert Step(s0, index, [], 0) == s1;
    // position 1 reads "c", which is due: "c" is deleted and the root "b" popped
    assert Expired(s1.memory, "c", index["c"]) == s2.memory;
    assert Step(s1, index, [], 1) == s2;
    // position 2 is past the end of the one-entry list
    assert Sweep(s2, index, [], 10, 2) == s2;
    assert Sweep(s1, index, [], 10, 1) == s2;
  }

  class TTLCacheV2<V> {
    /** The wrapped storage, by its contents. */
    var memory: map<Key, V>
    var expirationTimeList: seq<Key>
    var evictHookFunc: seq<HookId>
    var keyToExpirationItem: map<Key, ExpirationListEntry>
    /** Every hook call made so far, in order. */
    var hookCalls: seq<HookCall<V>>

    ghost predicate Valid()
      reads this
    {
      Indexed(expirationTimeList, keyToExpirationItem) && Distinct(expirationTimeList) && Keyed(keyToExpirationItem)
    }

    /** The state `expire(now)` leaves behind. */
    ghost function Swept(now: int): SweepState<V>
      reads this
      requires Valid()
    {
      Sweep(SweepState(memory, expirationTimeList, hookCalls), keyToExpirationItem, evictHookFunc, now, 0)
    }

    /** `TTLCacheV2(memory)`: no expiration entries and no hooks. */
    constructor (memory: map<Key, V>)
      ensures Valid()
      ensures this.memory == memory && expirationTimeList == [] && keyToExpirationItem == map[]
      ensures evictHookFunc == [] && hookCalls == []
    {
      this.memory := memory;
      expirationTimeList := [];
      evictHookFunc := [];
      keyToExpirationItem := map[];
      hookCalls := [];
    }

    /** `register_hook_func`: hooks accumulate in registration order. */
    method RegisterHookFunc(hook: HookId)
      modifies this
      ensures evictHookFunc == old(evictHookFunc) + [hook]
      ensures memory == old(memory) && expirationTimeList == old(expirationTimeList)
      ensures keyToExpirationItem == old(keyToExpirationItem) && hookCalls == old(hookCalls)
    {
      evictHookFunc := evictHookFunc + [hook];
    }

    /** `delete`: removes the key from storage only; its expiration entry stays queued and indexed. */
    method Delete(key: Key)
      modifies this
      ensures memory == old(memory) - {key}
      ensures expirationTimeList == old(expirationTimeList) && keyToExpirationItem == old(keyToExpirationItem)
      ensures evictHookFunc == old(evictHookFunc) && hookCalls == old(hookCalls)
    {
      memory := memory - {key};
    }

    /** `size`: the storage's size. */
    function Size(): (r: nat)
      reads this
      ensures r == |memory.Keys|
    {
      |memory|
    }

    /** `invoke_hooks`: calls every registered hook, in order. */
    method InvokeHooks(key: Key, storedValues: V, evictionTime: int)
      modifies this
      ensures hookCalls == old(hookCalls) + ExpirationCalls(evictHookFunc, key, storedValues, evictionTime)
      ensures memory == old(memory) && expirationTimeList == old(expirationTimeList)
      ensures keyToExpirationItem == old(keyToExpirationItem) && evictHookFunc == old(evictHookFunc)
    {
      for j := 0 to |evictHookFunc|
        invariant memory == old(memory) && expirationTimeList == old(expirationTimeList)
        invariant keyToExpirationItem == old(keyToExpirationItem) && evictHookFunc == old(evictHookFunc)
        invariant hookCalls == old(hookCalls) + ExpirationCalls(evictHookFunc[..j], key, storedValues, evictionTime)
      {
        assert ExpirationCalls(evictHookFunc[..j + 1], key, storedValues, evictionTime)
            == ExpirationCalls(evictHookFunc[..j], key, storedValues, evictionTime)
               + [HookCall(evictHookFunc[j], key, Expiration, storedValues, evictionTime)];
        hookCalls := hookCalls + [HookCall(evictHookFunc[j], key, Expiration, storedValues, evictionTime)];
      }
      assert evictHookFunc[..|evictHookFunc|] == evictHookFunc;
    }

    /** `expire(cur_time)`. */
    method Expire(now: int)
      requires Valid()
      modifies this
      ensures Valid()
      ensures SweepState(memory, expirationTimeList, hookCalls) == old(Swept(now))
      ensures keyToExpirationItem == old(keyToExpirationItem) && evictHookFunc == old(evictHookFunc)
    {
      ghost var target := Swept(now);
      var i := 0;
      while i < |expirationTimeList|
        invariant Valid()
        invariant keyToExpirationItem == old(keyToExpirationItem) && evictHookFunc == old(evictHookFunc)
        invariant Sweep(SweepState(memory, expirationTimeList, hookCalls), keyToExpirationItem, evictHookFunc, now, i)
               == target
        decreases |expirationTimeList| - i
      {
        var entry := keyToExpirationItem[expirationTimeList[i]];
        if now < entry.evictionTime {
          break;
        }
        VisitDue(i);
        i := i + 1;
      }
    }

    /** The body of the loop of `expire` on the due entry at position `i`. */
    method VisitDue(i: nat)
      requires Valid() && i < |expirationTimeList|
      modifies this
      ensures keyToExpirationItem == old(keyToExpirationItem) && evictHookFunc == old(evictHookFunc)
      ensures Valid()
      ensures SweepState(memory, expirationTimeList, hookCalls)
           == Step(old(SweepState(memory, expirationTimeList, hookCalls)), keyToExpirationItem, evictHookFunc, i)
    {
      var key := expirationTimeList[i];
      var entry := keyToExpirationItem[key];
      ghost var memory0, calls0 := memory, hookCalls;
      if !entry.dirtyDelete && key in memory {
        var storedValues := memory[key];
        InvokeHooks(key, storedValues, entry.evictionTime);
        memory := memory - {key};
      }
      assert memory == Expired(memory0, key, entry);
      assert hookCalls == Fired(memory0, calls0, evictHookFunc, key, entry);
      var popped := HeapQ.Pop(expirationTimeList, Before(keyToExpirationItem));
      DistinctShrinks(popped.1, expirationTimeList);
      PopKeepsIndexed(expirationTimeList, keyToExpirationItem);
      expirationTimeList := popped.1;
    }

    /** `contains(key)` at time `now`: sweeps, then asks the storage. */
    method Contains(key: Key, now: int) returns (r: bool)
      requires Valid()
      modifies this
      ensures Valid()
      ensures SweepState(memory, expirationTimeList, hookCalls) == old(Swept(now))
      ensures keyToExpirationItem == old(keyToExpirationItem) && evictHookFunc == old(evictHookFunc)
      ensures r <==> key in memory
    {
      Expire(now);
      r := key in memory;
    }

    /** `get(key, default)` at time `now`: sweeps, then reads the storage. */
    method Get(key: Key, default: Option<V>, now: int) returns (r: Option<V>)
      requires Valid()
      modifies this
      ensures Valid()
      ensures SweepState(memory, expirationTimeList, hookCalls) == old(Swept(now))
      ensures keyToExpirationItem == old(keyToExpirationItem) && evictHookFunc == old(evictHookFunc)
      ensures r == Lookup(memory, key, default)
    {
      Expire(now);
      r := Lookup(memory, key, default);
    }

    /**
     * `set(key, values, ttl)` at time `now`: sweeps, stores the value, and
     * either re-times the key's existing entry in place (leaving the heap as
     * it is) or files and pushes a new entry.
     */
    method Set(key: Key, values: V, ttl: int, now: int)
      requires Valid()
      modifies this
      ensures Valid()
      ensures var s := old(Swept(now));
              && memory == s.memory[key := values]
              && hookCalls == s.calls
              && keyToExpirationItem == old(keyToExpirationItem)[key := ExpirationListEntry(now + ttl, false, key)]
              && (key in old(keyToExpirationItem) ==> expirationTimeList == s.heap)
              && (key !in old(keyToExpirationItem) ==>
                    expirationTimeList == HeapQ.Push(s.heap, key, Before(keyToExpirationItem)))
      ensures evictHookFunc == old(evictHookFunc)
    {
      Expire(now);
      memory := memory[key := values];
      if key in keyToExpirationItem {
        keyToExpirationItem := keyToExpirationItem[key := ExpirationListEntry(now + ttl, false, key)];
      } else {
        keyToExpirationItem := keyToExpirationItem[key := ExpirationListEntry(now + ttl, false, key)];
        assert key !in expirationTimeList;
        var pushed := HeapQ.Push(expirationTimeList, key, Before(keyToExpirationItem));
        forall i | 0 <= i < |pushed|
          ensures pushed[i] in keyToExpirationItem
        {
          assert pushed[i] in multiset(pushed);
        }
        expirationTimeList := pushed;
      }
    }
  }

  /** `test_set`: a value set with a TTL reads back before the deadline. */
  method ReadBeforeDeadline<V>(cache: TTLCacheV2<V>, key: Key, v: V, ttl: int, t0: int, t1: int)
    returns (r: Option<V>)
    requires cache.Valid() && t1 < t0 + ttl
    modifies cache
    ensures r == Some(v)
  {
    cache.Set(key, v, ttl, t0);
    ghost var s := SweepState(cache.memory, cache.expirationTimeList, cache.hookCalls);
    SweepKeepsUndue(s, cache.keyToExpirationItem, cache.evictHookFunc, t1, 0, key);
    r := cache.Get(key, None, t1);
  }

  /** `test_set_twice`: re-setting with a longer TTL keeps the new value readable after the first TTL. */
  method ReadAfterRetime<V>(cache: TTLCacheV2<V>, key: Key, v1: V, v2: V, t0: int, t1: int, t2: int)
    returns (r: Option<V>)
    requires cache.Valid() && t0 <= t1 && t0 + 10 <= t2 < t1 + 35
    modifies cache
    ensures r == Some(v2)
  {
    cache.Set(key, v1, 10, t0);
    cache.Set(key, v2, 35, t1);
    ghost var s := SweepState(cache.memory, cache.expirationTimeList, cache.hookCalls);
    SweepKeepsUndue(s, cache.keyToExpirationItem, cache.evictHookFunc, t2, 0, key);
    r := cache.Get(key, None, t2);
  }

  /**
   * `test_get_after_expired_set`: on a fresh cache, a key read at or after its
   * deadline reads as absent, is gone from storage, and every hook saw it expire.
   */
  method ReadAfterDeadline<V>(memory: map<Key, V>, hooks: seq<HookId>, key: Key, v: V, ttl: int, t0: int, t1: int)
    returns (r: Option<V>, cache: TTLCacheV2<V>)
    requires t0 + ttl <= t1
    ensures r == None && key !in cache.memory
    ensures cache.hookCalls == ExpirationCalls(hooks, key, v, t0 + ttl)
  {
    cache := new TTLCacheV2(memory);
    for j := 0 to |hooks|
      invariant cache.Valid() && cache.memory == memory && cache.evictHookFunc == hooks[..j]
      invariant cache.expirationTimeList == [] && cache.keyToExpirationItem == map[] && cache.hookCalls == []
    {
      cache.RegisterHookFunc(hooks[j]);
      assert hooks[..j + 1] == hooks[..j] + [hooks[j]];
    }
    assert hooks[..|hooks|] == hooks;
    cache.Set(key, v, ttl, t0);
    assert cache.expirationTimeList == [key];
    ghost var s := SweepState(cache.memory, cache.expirationTimeList, cache.hookCalls);
    ghost var entry := cache.keyToExpirationItem[key];
    SweepSingleDue(s, cache.keyToExpirationItem, hooks, t1);
    assert Fires(s.memory, key, entry);
    r := cache.Get(key, None, t1);
  }

  /**
   * The index is never cleaned: once a key's entry has been popped, setting the
   * key again only re-times the indexed entry, nothing is pushed, and the key
   * then survives every later sweep, however far past its new deadline.
   */
  method NeverExpiresAfterReset<V>(memory: map<Key, V>, key: Key, v1: V, v2: V, t1: int)
    returns (cache: TTLCacheV2<V>)
    requires 0 <= t1
    ensures key in cache.memory && cache.memory[key] == v2
    ensures cache.expirationTimeList == [] && key in cache.keyToExpirationItem
    ensures cache.keyToExpirationItem[key].evictionTime <= t1
  {
    cache := new TTLCacheV2(memory);
    cache.Set(key, v1, 0, 0);
    assert cache.expirationTimeList == [key];
    SweepSingleDue(SweepState(cache.memory, cache.expirationTimeList, cache.hookCalls),
                   cache.keyToExpirationItem, cache.evictHookFunc, 0);
    var _ := cache.Contains(key, 0);
    assert cache.expirationTimeList == [];
    cache.Set(key, v2, 0, 0);
    ghost var s := SweepState(cache.memory, cache.expirationTimeList, cache.hookCalls);
    SweepKeepsUnqueued(s, cache.keyToExpirationItem, cache.evictHookFunc, t1, 0, key);
    SweepOnlyExpires(s, cache.keyToExpirationItem, cache.evictHookFunc, t1, 0);
    cache.Expire(t1);
  }
}
