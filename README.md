# rlcache cache engine in Dafny

rlcache is a caching layer for experimenting with eviction, admission and
time-to-live (TTL) policies. A `CacheManager` sits in front of a backend
store. On a read it serves a resident key as a hit, or fetches the key from
the backend and offers it for admission as a miss. On a write it invalidates
the resident copy and offers the new value. Each step is published to the
strategies' observers. Admission asks a caching strategy, takes a TTL from a
TTL strategy and, when the cache is full, lets an eviction strategy trim it
once before writing.

This project models the engine's storage and policy layer:

- the backing `InMemoryStorage` and the `Storage.is_full` rule;
- the three TTL wrappers: the heap-indexed `TTLCacheV2`, and the two
  linked-list `TTLCache`s (one calls a hook, one notifies an observer);
- the cache manager and the observer fan-out;
- the FIFO and LRU eviction strategies and the two timestamp LRU caches;
- the two fixed admission policies and the fixed-TTL estimator;
- the token vocabulary;
- the two reinforcement-learning reward tables.

Each Python class whose fields change in place is a Dafny `class` with those
fields. Its methods state the new state as a function of the old one. Pure
decision code becomes functions with lemmas. The Python exceptions the code
raises are values: a `Result` or an `Outcome` carries a `PyError`.

Time is an explicit `now` argument. It stands for `time.time()`, `monotonic`
and the `_Timer` context manager.

Storage wrapped by another class is modelled by its contents (a `map`). The
manager and the LRU eviction strategy use the `InMemoryStorage` class itself.
An eviction hook is a number, and each class records the calls it makes, in
order. An observer is a number too, or the `None` that a strategy's default
`observer()` returns.

Every module is named after the Python file it models. `Links`
(the `_Link` list shared by both linked-list caches), `HeapQ` (Python's
`heapq`), `OrderedDicts` (`collections.OrderedDict`) and `Stamps` (the
clock of both timestamp LRU caches) hold what several files share.

## Model

| member | source | states |
|---|---|---|
| `Observation.FromValue` | rlcache/observer.py:6-12 | The six event kinds carry the values 1..6; exactly those integers name a member, and the member's value is the integer |
| `Observation.ValueRoundTrip` | rlcache/observer.py:6-12 | Decoding a member's value gives the member back |
| `Observation.ValueInjective` | rlcache/observer.py:6-12 | Two members share a value only if they are the same member |
| `CacheConstants.CacheStatus.Value` | rlcache/cache_constants.py:4-8 | `Hit`, `Miss`, `Invalidation` and `New` carry the values 0, 1, 2 and 3 |
| `CacheConstants.ValueInjective` | rlcache/cache_constants.py:4-8 | Distinct statuses carry distinct values |
| `Hooks.ExpirationCalls` | rlcache/backend/ttl_cache_v2.py:91-93 | One call per registered hook, in registration order, each with the key, `Expiration`, the value and the expiry time |
| `StorageBase.UnboundedNeverFull` | rlcache/backend/base.py:9-12 | A storage with no capacity is never full |
| `StorageBase.FullIffAtCapacity` | rlcache/backend/base.py:13 | With capacity `c`, full holds exactly when the size has reached `c` |
| `StorageBase.ZeroCapacityAlwaysFull` | rlcache/backend/base.py:13 | A capacity of zero or less is full even when empty |
| `StorageBase.RemovalMakesRoom` | rlcache/backend/base.py:9-13 | Removing one entry from a storage that is exactly at capacity makes it not full |
| `InMemory.Stored` | rlcache/backend/inmemory.py:24-29 | `set` raises `TypeError` exactly when the capacity is `None` or the dict already holds more than `capacity` entries; otherwise the key maps to `(value, now + ttl)` and every other entry is unchanged |
| `InMemory.StoredWithinBound` | rlcache/backend/inmemory.py:24-29 | A successful `set` leaves at most `capacity + 1` entries |
| `InMemory.CapacityExceededByOne` | rlcache/backend/inmemory.py:25-26 | A storage of capacity 1 that holds one key accepts a second key, ending with two entries |
| `InMemory.InMemoryStorage.constructor` | rlcache/backend/inmemory.py:12-14 | A new storage is empty, with the given capacity |
| `InMemory.InMemoryStorage.Get` | rlcache/backend/inmemory.py:16-22 | An absent key raises `KeyError`; an expired entry is deleted and `default` returned; a live entry returns its value and nothing changes |
| `InMemory.InMemoryStorage.Set` | rlcache/backend/inmemory.py:24-29 | The new contents are `Stored(...)` and the answer is `True`, or the error is raised and nothing changes |
| `InMemory.InMemoryStorage.Delete` | rlcache/backend/inmemory.py:31-35 | Answers whether the key was present; afterwards it is absent and every other entry is kept |
| `InMemory.InMemoryStorage.Clear` | rlcache/backend/inmemory.py:37-39 | Empties the dict and answers `True` |
| `InMemory.InMemoryStorage.Size` | rlcache/backend/inmemory.py:41-42 | Counts every stored key, expired or not |
| `InMemory.InMemoryStorage.Contains` | rlcache/backend/inmemory.py:44-45 | Holds exactly when the key is stored; expiry is not consulted |
| `InMemory.InMemoryStorage.IsFull` | rlcache/backend/base.py:9-13 | Full exactly when there is a capacity and the size has reached it |
| `InMemory.InMemoryStorage.ContainsItem` | rlcache/backend/base.py:39-40 | `key in storage` holds exactly when `contains` does |
| `InMemory.InMemoryStorage.SetItem` | rlcache/backend/base.py:42-43 | `storage[key] = value` is `set` with the default ttl of 500 |
| `InMemory.InMemoryStorage.GetItem` | rlcache/backend/base.py:45-46 | `storage[key]` is `get` with default `None`: the same three cases |
| `InMemory.InMemoryStorage.Len` | rlcache/backend/base.py:48-49 | `len(storage)` is the number of stored keys |
| `InMemory.InMemoryStorage.DelItem` | rlcache/backend/base.py:51-52 | `del storage[key]` is `delete`: the key is gone, and the answer says whether it was there |
| `HeapQ.Push` | rlcache/backend/ttl_cache_v2.py:73 | `heappush` adds exactly the new item: one more item, same multiset plus it |
| `HeapQ.Pop` | rlcache/backend/ttl_cache_v2.py:89 | `heappop` returns the root and leaves the other items, one fewer |
| `HeapQ.SiftDownRestoresHeap` | rlcache/backend/ttl_cache_v2.py:73 | Sifting an item towards the root restores the heap property under a strict weak order |
| `HeapQ.PushKeepsHeap` | rlcache/backend/ttl_cache_v2.py:73 | Pushing onto a heap gives a heap |
| `HeapQ.RootIsLeast` | rlcache/backend/ttl_cache_v2.py:76-82 | No item of a heap is less than its root, so the first entry the sweep reads is the earliest |
| `TtlCacheV2.BeforeIsStrictWeakOrder` | rlcache/backend/ttl_cache_v2.py:14-19 | Ordering entries by `(eviction_time, dirty_delete)`, ignoring the key, is a strict weak order, so `heapq` keeps a heap with it |
| `TtlCacheV2.PushAsWritten` | rlcache/backend/ttl_cache_v2.py:73 | With the entry class as declared, `heappush` appends, then raises `TypeError` whenever the heap was not empty |
| `TtlCacheV2.SecondPushRaises` | rlcache/backend/ttl_cache_v2.py:14-19 | The second distinct key set raises as written, while the ordered push holds both keys |
| `TtlCacheV2.Step` | rlcache/backend/ttl_cache_v2.py:84-89 | One turn of the sweep on a due entry: deletes the key only if the entry is clean and the key stored, fires the hooks, and pops one root entry |
| `TtlCacheV2.Expired` | rlcache/backend/ttl_cache_v2.py:84-88 | Only the key of a clean due entry can leave storage; every other value is kept |
| `TtlCacheV2.Fired` | rlcache/backend/ttl_cache_v2.py:84-86 | The hook calls are only appended to |
| `TtlCacheV2.PopRest` | rlcache/backend/ttl_cache_v2.py:89 | A pop leaves one entry fewer, all of them indexed |
| `TtlCacheV2.SweepKeepsUndue` | rlcache/backend/ttl_cache_v2.py:80-82 | A stored key whose entry is not due survives the sweep with its value |
| `TtlCacheV2.SweepOnlyExpires` | rlcache/backend/ttl_cache_v2.py:84-88 | The sweep only removes keys and never alters a surviving value; every removed key had a clean entry due at `now` |
| `TtlCacheV2.Sweep` | rlcache/backend/ttl_cache_v2.py:76-89 | The whole `for` loop from a position: at the end of the list or at an entry not yet due it changes nothing, and it only ever appends hook calls |
| `TtlCacheV2.SweepKeepsUnqueued` | rlcache/backend/ttl_cache_v2.py:75-89 | A stored key with no entry left in the heap is never expired |
| `TtlCacheV2.DueRootExpires` | rlcache/backend/ttl_cache_v2.py:84-93 | A due, clean, stored root is deleted, and its first calls are every hook's, in order, with key, value and expiry time |
| `TtlCacheV2.SweepSingleDue` | rlcache/backend/ttl_cache_v2.py:76-89 | A sweep over one due entry takes one step and empties the heap |
| `TtlCacheV2.SweepSkipsEntries` | rlcache/backend/ttl_cache_v2.py:76-89 | Because the `for` loop advances while `heappop` shortens the list, three clean due keys lose only the first and the third |
| `TtlCacheV2.TTLCacheV2.constructor` | rlcache/backend/ttl_cache_v2.py:32-36 | No entries, no index, no hooks |
| `TtlCacheV2.TTLCacheV2.RegisterHookFunc` | rlcache/backend/ttl_cache_v2.py:38-40 | Hooks accumulate in registration order |
| `TtlCacheV2.TTLCacheV2.Delete` | rlcache/backend/ttl_cache_v2.py:42-44 | Removes the key from storage only; the heap and the index are unchanged, so the key's entry stays queued |
| `TtlCacheV2.TTLCacheV2.Size` | rlcache/backend/ttl_cache_v2.py:46-47 | The storage's size |
| `TtlCacheV2.TTLCacheV2.InvokeHooks` | rlcache/backend/ttl_cache_v2.py:91-93 | Appends exactly the calls of every hook, in order |
| `TtlCacheV2.TTLCacheV2.Expire` | rlcache/backend/ttl_cache_v2.py:75-89 | The loop leaves storage, heap and calls exactly as the sweep function says; it stops at the first entry read that is not due |
| `TtlCacheV2.TTLCacheV2.VisitDue` | rlcache/backend/ttl_cache_v2.py:77-89 | One loop turn is exactly one sweep step |
| `TtlCacheV2.TTLCacheV2.Contains` | rlcache/backend/ttl_cache_v2.py:49-51 | Sweeps, then answers whether the storage holds the key |
| `TtlCacheV2.TTLCacheV2.Get` | rlcache/backend/ttl_cache_v2.py:53-55 | Sweeps, then reads the storage with the default |
| `TtlCacheV2.TTLCacheV2.Set` | rlcache/backend/ttl_cache_v2.py:57-73 | Sweeps and stores the value. An indexed key has its entry re-timed to `now + ttl` and made clean, with no heap change. A new key gets one new entry, pushed onto the heap |
| `TtlCacheV2.ReadBeforeDeadline` | rlcache/tests/backend/test_TTLCache_v2.py:23-34 | A value set with a ttl reads back before its deadline |
| `TtlCacheV2.ReadAfterRetime` | rlcache/tests/backend/test_TTLCache_v2.py:36-54 | After re-setting with a longer ttl, the new value is still readable once the first ttl has passed |
| `TtlCacheV2.ReadAfterDeadline` | rlcache/tests/backend/test_TTLCache_v2.py:56-71 | Over a storage that reads like a dict with a default, a key read at its deadline reads as absent, is gone from storage, and every hook saw it expire. The test's own `InMemoryStorage` would instead raise `KeyError` at line 67, since the sweep deleted the key |
| `TtlCacheV2.NeverExpiresAfterReset` | rlcache/backend/ttl_cache_v2.py:66-69 | Because the index is never cleaned, a key re-set after its entry was popped is never expired again |
| `Links.Find` | rlcache/backend/ttl_cache.py:134-137 | The link of a key is found exactly when some link carries the key |
| `Links.Unlink` | rlcache/backend/ttl_cache.py:153-157 | Unlinking removes exactly the key's links and keeps the rest in their order, one link per key |
| `Links.UnlinkLinked` | rlcache/backend/ttl_cache.py:56-57 | Unlinking a linked key removes exactly one link |
| `Links.UnlinkAbsent` | rlcache/backend/ttl_cache.py:42-47 | Unlinking a key with no link leaves the list unchanged, so `set` of a new key only appends |
| `Links.UnlinkKeepsSorted` | rlcache/backend/ttl_cache.py:153-157 | Unlinking keeps a list sorted by expiry |
| `Links.ExpiredPrefix` | rlcache/backend/ttl_cache.py:123-132 | The sweep walks exactly the expired links at the front and stops at the first live one |
| `Links.SortedPrefixIsAllExpired` | rlcache/backend/ttl_cache.py:116-132 | On a list sorted by expiry the front run is every expired link |
| `Links.RelinkKeepsSorted` | rlcache/backend/ttl_cache.py:47-51 | Re-linking at the tail with the latest expiry keeps the list sorted |
| `Links.SweepIsIdempotent` | rlcache/backend/ttl_cache.py:123-132 | A second sweep at the same time removes nothing |
| `Links.TailSurvivesSweep` | rlcache/backend/ttl_cache.py:116-132 | A link at the tail, among links with one per key, survives every sweep up to its expiry: the key stays live and is not deleted |
| `Links.RelinkedDistinct` | rlcache/backend/ttl_cache.py:42-51 | `set` keeps one link per key |
| `Links.RelinkedLiveUntilExpiry` | rlcache/backend/ttl_cache.py:48-51 | Right after `set`, the key is live exactly until its new expiry time |
| `Links.RelinkedOthersUnchanged` | rlcache/backend/ttl_cache.py:42-51 | `set` of one key leaves every other key's liveness as it was |
| `TtlCache.SweepCalls` | rlcache/backend/ttl_cache.py:124-127 | With a hook, one call per swept link, in order, with `Expiration`, the stored value (or `None`) and `expire_at`; with no hook, none |
| `TtlCache.TTLCache.constructor` | rlcache/backend/ttl_cache.py:22-28 | No links and no hook |
| `TtlCache.TTLCache.RegisterHookFunc` | rlcache/backend/ttl_cache.py:30-31 | The new hook replaces any earlier one |
| `TtlCache.TTLCache.Expire` | rlcache/backend/ttl_cache.py:116-132 | Removes exactly the expired front run from the list and the storage, and appends one hook call per swept link, carrying the value stored before the sweep |
| `TtlCache.TTLCache.Clear` | rlcache/backend/ttl_cache.py:33-36 | Sweeps, then empties the storage; the surviving links stay |
| `TtlCache.TTLCache.Set` | rlcache/backend/ttl_cache.py:38-52 | Sweeps, stores the value, relinks the key at the tail with expiry `now + ttl`, and answers `True` |
| `TtlCache.TTLCache.Delete` | rlcache/backend/ttl_cache.py:54-58 | Deletes from storage. An unlinked key then raises `KeyError`; a linked key loses exactly its link |
| `TtlCache.TTLCache.Size` | rlcache/backend/ttl_cache.py:60-61 | The storage's size |
| `TtlCache.TTLCache.Contains` | rlcache/backend/ttl_cache.py:63-69 | Holds exactly when the key has a link that has not expired; nothing changes |
| `TtlCache.TTLCache.Get` | rlcache/backend/ttl_cache.py:71-79 | Sweeps, then answers the storage's `get(key, default)` |
| `TtlCache.TTLCache.Len` | rlcache/backend/ttl_cache.py:91-99 | The number of links less the expired front run |
| `TtlCache.StaleReadBehindLiveHead` | rlcache/backend/ttl_cache.py:123 | An expired link behind a live one is not swept: the key is not contained, yet `get` still returns its value |
| `TtlCache.LenAfterSweep` | rlcache/backend/ttl_cache.py:91-99 | Right after a sweep, `__len__` counts every remaining link |
| `TtlCache.ReadBeforeDeadline` | rlcache/backend/ttl_cache.py:71-79 | A key just set is contained and reads back its value up to its deadline |
| `InMemoryTtl.ExpiryNotices` | rlcache/backend/inmemory_ttl.py:129 | One `Expiration` notice per swept link, in order, with its `expire_at` |
| `InMemoryTtl.TTLCache.constructor` | rlcache/backend/inmemory_ttl.py:24-30 | No links, nothing observed |
| `InMemoryTtl.TTLCache.IsFull` | rlcache/backend/inmemory_ttl.py:32-33 | Exactly the wrapped storage's `is_full` |
| `InMemoryTtl.TTLCache.ExpireAsWritten` | rlcache/backend/inmemory_ttl.py:127-129 | As written, the first expired link has its key deleted, then the sweep raises `AttributeError`; no link is dropped and nothing is observed |
| `InMemoryTtl.TTLCache.Expire` | rlcache/backend/inmemory_ttl.py:120-133 | As intended, the expired front run leaves both the list and the storage, with one `Expiration` notice per swept link, in order |
| `InMemoryTtl.TTLCache.Clear` | rlcache/backend/inmemory_ttl.py:35-38 | Sweeps, then empties the storage |
| `InMemoryTtl.TTLCache.Set` | rlcache/backend/inmemory_ttl.py:40-54 | Sweeps, stores, relinks the key at the tail with expiry `now + ttl` (one link per key), and answers `True` |
| `InMemoryTtl.TTLCache.Delete` | rlcache/backend/inmemory_ttl.py:56-60 | Deletes from storage; then `KeyError` for an unlinked key, or the key's one link removed and `True` |
| `InMemoryTtl.TTLCache.Contains` | rlcache/backend/inmemory_ttl.py:65-71 | Holds exactly when the key has a link that has not expired |
| `InMemoryTtl.TTLCache.Get` | rlcache/backend/inmemory_ttl.py:73-83 | With no sweep: `ExpiredKeyError` exactly when the key's link has expired. Otherwise, linked or not, it answers `memory.get(key, default)` |
| `InMemoryTtl.TTLCache.Len` | rlcache/backend/inmemory_ttl.py:95-103 | The number of links less the expired front run |
| `InMemoryTtl.SetAfterExpiryRaises` | rlcache/backend/inmemory_ttl.py:40-43 | As written, a `set` issued after an earlier key expired raises, with the expired key already deleted |
| `InMemoryTtl.SetAfterExpiryObserved` | rlcache/backend/inmemory_ttl.py:120-133 | As intended, the same `set` sweeps the old key, observes its expiry and links the new key |
| `InMemoryTtl.GetExpiredRaises` | rlcache/backend/inmemory_ttl.py:73-81 | A read of an expired link raises instead of returning the default |
| `ObserverDispatch.Member` | rlcache/observers/observer.py:7-11 | Exactly the four names `Read`, `Write`, `Update` and `Eviction` are members; any other attribute raises `AttributeError` |
| `ObserverDispatch.NoExpirationMember` | rlcache/observers/observer.py:7-11 | `Expiration` is not a member of this enum |
| `ObserverDispatch.ValueInjective` | rlcache/observers/observer.py:7-11 | The four values are distinct |
| `ObserverDispatch.Reached` | rlcache/observers/observer.py:23-25 | The fan-out reaches every observer before the first `None`, and stops at it |
| `ObserverDispatch.Deliveries` | rlcache/observers/observer.py:24-25 | One call per observer, in list order, each with the same key and kind |
| `ObserverDispatch.FanOut` | rlcache/observers/observer.py:23-25 | The calls of one `observe`: the reached observers, in order, each with the same key and kind |
| `ObserverDispatch.ObserverContainer.constructor` | rlcache/observers/observer.py:20-21 | Holds the given observers; nothing delivered yet |
| `ObserverDispatch.ObserverContainer.Observe` | rlcache/observers/observer.py:23-25 | The loop makes exactly the fan-out's calls. It succeeds exactly when no observer is `None`, and raises `AttributeError` otherwise |
| `ObserverDispatch.EveryObserverOnce` | rlcache/observers/observer.py:23-25 | With no `None`, every observer hears each event exactly once, in list order |
| `ObserverDispatch.NoneShieldsTheRest` | rlcache/observers/observer.py:23-25 | The observers behind a `None` never hear anything |
| `CacheManagement.RefusedLeavesCache` | rlcache/cache_manager.py:62-63 | A value the caching strategy refuses leaves the cache unchanged, and `_set` succeeds |
| `CacheManagement.AdmittedIsCached` | rlcache/cache_manager.py:62-67 | A successful admission stores the value with expiry `now + ttl` |
| `CacheManagement.AdmitTrimsOnlyVictim` | rlcache/cache_manager.py:65-67 | Admission trims at most once: only the victim, and only when the cache was full, loses its entry |
| `CacheManagement.AdmitWithinBound` | rlcache/cache_manager.py:62-67 | Admission keeps the cache within `capacity + 1` entries |
| `CacheManagement.CacheManager.constructor` | rlcache/cache_manager.py:13-31 | All four counters start at 0 |
| `CacheManagement.CacheManager.Stats` | rlcache/cache_manager.py:59-60 | Answers the counters |
| `CacheManagement.CacheManager.Admit` | rlcache/cache_manager.py:62-67 | The outcome and the new cache contents are those of the admission function |
| `CacheManagement.CacheManager.Get` | rlcache/cache_manager.py:33-42 | Publishes `Read` first; a failing observer stops it. A hit counts a hit and reads the cache only. A miss counts a miss, reads the backend (`KeyError` for an absent key) and offers the value with status `Miss` |
| `CacheManagement.CacheManager.Set` | rlcache/cache_manager.py:44-53 | A resident key publishes `Update`, counts an invalidation and is deleted, with status `Invalidation`. Any other key publishes `Write`, with status `New`. Then admission runs |
| `CacheManagement.CacheManager.Delete` | rlcache/cache_manager.py:55-57 | Publishes `Eviction`, then deletes the key from the cache; no counter changes |
| `CacheManagement.ReadOnlyWriteNotCached` | rlcache/cache_manager.py:44-53 | With read-only caching a write is never admitted |
| `OrderedDicts.Assign` | rlcache/strategies/eviction_strategies/fifo_eviction_strategy.py:30 | Assigning to a present key keeps its position; a new key is appended |
| `OrderedDicts.Remove` | rlcache/strategies/eviction_strategies/fifo_eviction_strategy.py:33 | Deleting a present key removes its one item and keeps the others in their order |
| `OrderedDicts.PopFirst` | rlcache/strategies/eviction_strategies/fifo_eviction_strategy.py:49 | `popitem(last=False)` answers the front item and the rest, or `KeyError` when empty |
| `OrderedDicts.AssignThenGet` | rlcache/strategies/eviction_strategies/fifo_eviction_strategy.py:30 | After an assignment the key reads back the assigned value |
| `OrderedDicts.AssignKeepsUnique` | rlcache/strategies/eviction_strategies/fifo_eviction_strategy.py:30 | Assignment keeps one item per key |
| `OrderedDicts.RemovedKeys` | rlcache/strategies/eviction_strategies/fifo_eviction_strategy.py:33 | After a deletion exactly the other keys remain |
| `OrderedDicts.RemoveKeepsUnique` | rlcache/strategies/eviction_strategies/lru_eviction_strategy.py:14-17 | Removal keeps one item per key |
| `OrderedDicts.AssignNewThenRemove` | rlcache/strategies/eviction_strategies/fifo_eviction_strategy.py:30-33 | Assigning a new key and deleting it gives back the dict as it was |
| `FifoEviction.Observed` | rlcache/strategies/eviction_strategies/fifo_eviction_strategy.py:26-33 | `KeyError` exactly for a `Write` without a ttl, or an `Expiration`/`Invalidate` of an untracked key |
| `FifoEviction.WriteAppends` | rlcache/strategies/eviction_strategies/fifo_eviction_strategy.py:27-30 | A `Write` of an untracked key appends it at the back with its ttl and time |
| `FifoEviction.RewriteKeepsPlace` | rlcache/strategies/eviction_strategies/fifo_eviction_strategy.py:30 | A `Write` of a tracked key replaces its info and keeps the key order |
| `FifoEviction.OtherKindsKeepQueue` | rlcache/strategies/eviction_strategies/fifo_eviction_strategy.py:26-33 | `Hit`, `Miss` and `EvictionPolicy` leave the queue as it is |
| `FifoEviction.ExpiryUntracks` | rlcache/strategies/eviction_strategies/fifo_eviction_strategy.py:31-33 | `Expiration`/`Invalidate` remove exactly the tracked key and keep the others in order |
| `FifoEviction.ObservedKeepsUnique` | rlcache/strategies/eviction_strategies/fifo_eviction_strategy.py:26-33 | Every observation keeps one queue entry per key |
| `FifoEviction.FIFOEvictionStrategy.constructor` | rlcache/strategies/eviction_strategies/fifo_eviction_strategy.py:17 | The queue starts empty |
| `FifoEviction.FIFOEvictionStrategy.Observe` | rlcache/strategies/eviction_strategies/fifo_eviction_strategy.py:26-33 | The queue becomes `Observed(...)`, or the error is raised and it is unchanged |
| `FifoEviction.FIFOEvictionStrategy.TrimCache` | rlcache/strategies/eviction_strategies/fifo_eviction_strategy.py:48-57 | Pops the front key (`KeyError` when empty). Raises `AssertionError`, with the key popped, when the cache does not hold it live. Otherwise deletes exactly that key and answers `[key]` |
| `LruEviction.TouchedAsWritten` | rlcache/strategies/eviction_strategies/lru_eviction_strategy.py:13-19 | As written, `observe` only removes: it never adds an item |
| `LruEviction.AsWrittenNeverTracks` | rlcache/strategies/eviction_strategies/lru_eviction_strategy.py:18-19 | As written, the observed key is never tracked and an empty order stays empty |
| `LruEviction.WriteTrackedOnlyAsIntended` | rlcache/strategies/eviction_strategies/lru_eviction_strategy.py:18-19 | A fresh `Write` is dropped as written and becomes the most recent key as intended |
| `LruEviction.TouchedKeepsUnique` | rlcache/strategies/eviction_strategies/lru_eviction_strategy.py:13-19 | The intended `observe` keeps one item per key |
| `LruEviction.TouchedMovesToBack` | rlcache/strategies/eviction_strategies/lru_eviction_strategy.py:13-19 | As intended, a non-eviction event moves the key to the back, keeping the others in order; an eviction untracks it |
| `LruEviction.LRUObserver.constructor` | rlcache/strategies/eviction_strategies/lru_eviction_strategy.py:10-11 | The order starts empty |
| `LruEviction.LRUObserver.ObserveAsWritten` | rlcache/strategies/eviction_strategies/lru_eviction_strategy.py:13-19 | The order becomes `TouchedAsWritten(...)`; an unseen key raises nothing. The older copy, rlcache/eviction_strategies/lru_eviction_strategy.py:12-18, is the same code |
| `LruEviction.LRUObserver.Observe` | rlcache/strategies/eviction_strategies/lru_eviction_strategy.py:13-19 | The order becomes `Touched(...)` |
| `LruEviction.LRUEvictionStrategy.constructor` | rlcache/eviction_strategies/lru_eviction_strategy.py:21-23 | A fresh observer with an empty order |
| `LruEviction.LRUEvictionStrategy.TrimCache` | rlcache/strategies/eviction_strategies/lru_eviction_strategy.py:30-32 | Pops the front key and deletes exactly it from the cache, keeping the rest in order; `KeyError` when empty. The older copy, rlcache/eviction_strategies/lru_eviction_strategy.py:28-30, is the same code |
| `LruEviction.TrimAfterWriteAsWritten` | rlcache/strategies/eviction_strategies/lru_eviction_strategy.py:30-32 | As written, a trim after a write raises `KeyError` |
| `LruEviction.TrimAfterWrite` | rlcache/strategies/eviction_strategies/lru_eviction_strategy.py:30-32 | As intended, the same trim evicts the written key |
| `Stamps.Stamp` | rlcache/eviction_strategies/lru_cache.py:17-18 | The key gets the current clock value; every other stamp is kept |
| `Stamps.StampKeepsWellStamped` | rlcache/eviction_strategies/lru_cache.py:29-30 | Stamping keeps the stamps distinct and below the clock, and makes the key the most recent |
| `Stamps.DropKeepsWellStamped` | rlcache/eviction_strategies/lru_cache.py:27 | Untracking keeps the stamps well formed |
| `Stamps.LeastRecentUnique` | rlcache/eviction_strategies/lru_cache.py:25 | With distinct stamps the least recent key is unique, whatever order `min` scans in |
| `Stamps.LeastRecent` | rlcache/eviction_strategies/lru_cache.py:25 | `min` over the tracked keys answers a key with the smallest stamp, or `ValueError` when nothing is tracked |
| `LruCache.DeleteMakesRoom` | rlcache/eviction_strategies/lru_cache.py:23-28 | Deleting one stored key lets the refused write through |
| `LruCache.LRUCache.constructor` | rlcache/eviction_strategies/lru_cache.py:10-13 | The clock at 0, nothing tracked |
| `LruCache.LRUCache.Get` | rlcache/eviction_strategies/lru_cache.py:15-20 | A tracked key is stamped, the clock advances by one and the stored value is answered; an untracked key answers `None` and nothing changes |
| `LruCache.LRUCache.Set` | rlcache/eviction_strategies/lru_cache.py:22-31 | Over the refusing storage assumed under "## Left out": an accepted write is stored and stamped, answering `True`. A refused one first evicts a least recent key from both storage and stamps, or raises `ValueError` with nothing tracked |
| `LruCache.LRUCache.Delete` | rlcache/eviction_strategies/lru_cache.py:33-35 | An untracked key raises `KeyError`; otherwise it is untracked and deleted |
| `LruCache.LRUCache.Clear` | rlcache/eviction_strategies/lru_cache.py:37-39 | Empties storage and stamps |
| `LruCache.LRUCache.Size` | rlcache/eviction_strategies/lru_cache.py:41-42 | The storage's size |
| `LruCache.LRUCache.State` | rlcache/eviction_strategies/lru_cache.py:44-48 | The storage's size and capacity |
| `LruCache.LRUCache.Contains` | rlcache/eviction_strategies/lru_cache.py:50-51 | The storage's answer |
| `LruCache.SecondKeyEvictsFirst` | rlcache/eviction_strategies/lru_cache.py:22-31 | In a cache of capacity one, writing a second key evicts the first |
| `BaselineLru.Len` | rlcache/baselines/lru_cache.py:20 | `len` of an `int` raises `TypeError` |
| `BaselineLru.LRUCache.constructor` | rlcache/baselines/lru_cache.py:9-12 | The clock at 0, nothing tracked |
| `BaselineLru.LRUCache.Get` | rlcache/baselines/lru_cache.py:14-17 | Stamps any key, stored or not, advances the clock, and reads the cache |
| `BaselineLru.LRUCache.SetAsWritten` | rlcache/baselines/lru_cache.py:19-20 | As written, every `set` raises `TypeError` before changing anything |
| `BaselineLru.LRUCache.Set` | rlcache/baselines/lru_cache.py:19-27 | As intended: at capacity a least recent key is evicted (`ValueError` with nothing tracked); then the key is written and stamped with the newest stamp |
| `BaselineLru.ReadOnlyKeyShieldsStoredOne` | rlcache/baselines/lru_cache.py:14-27 | A key that was only read is the victim, so a cache of capacity one ends up holding two keys |
| `SimpleStrategies.ReadWriteAlwaysCaches` | rlcache/strategies/caching_strategies/simple_strategies.py:8-9 | Read-write caching admits everything |
| `SimpleStrategies.ReadOnlyCachesOnlyMisses` | rlcache/strategies/caching_strategies/simple_strategies.py:13-14 | Read-only caching admits exactly the misses |
| `SimpleStrategies.IndependentOfRequest` | rlcache/strategies/caching_strategies/simple_strategies.py:8-14 | Neither policy looks at the key or the values |
| `SimpleStrategies.ReadOnlyAdmitsLess` | rlcache/strategies/caching_strategies/simple_strategies.py:8-14 | Read-only admits a subset of what read-write admits |
| `FixedTtl.Observed` | rlcache/strategies/ttl_estimation_strategies/fixed_ttl_strategy.py:21-41 | As intended, with the log line at 38 removed: an observation changes only the observed key's tracking |
| `FixedTtl.ObservedAsWritten` | rlcache/strategies/ttl_estimation_strategies/fixed_ttl_strategy.py:21-41 | As written: `AttributeError` exactly for a tracked key and an event other than a hit, with the tracking unchanged; otherwise the intended update |
| `FixedTtl.InvalidateAfterWriteRaises` | rlcache/strategies/ttl_estimation_strategies/fixed_ttl_strategy.py:23-39 | After a write, an invalidation of the same key raises as written and leaves it tracked; as intended it untracks the key |
| `FixedTtl.UntrackedStartsOnWrite` | rlcache/strategies/ttl_estimation_strategies/fixed_ttl_strategy.py:23-26 | An untracked key starts being tracked, with no hits, only on `Write` |
| `FixedTtl.HitCounts` | rlcache/strategies/ttl_estimation_strategies/fixed_ttl_strategy.py:29-30 | A hit adds one hit and keeps the write time and estimate |
| `FixedTtl.OtherEventsUntrack` | rlcache/strategies/ttl_estimation_strategies/fixed_ttl_strategy.py:31-39 | As intended: any event other than a hit or a write untracks a tracked key |
| `FixedTtl.RewriteRestarts` | rlcache/strategies/ttl_estimation_strategies/fixed_ttl_strategy.py:39-41 | As intended: a rewrite restarts the tracking with no hits and the configured ttl |
| `FixedTtl.FixedTtlStrategy.constructor` | rlcache/strategies/ttl_estimation_strategies/fixed_ttl_strategy.py:14-19 | The configured ttl, nothing tracked |
| `FixedTtl.FixedTtlStrategy.ObserveAsWritten` | rlcache/strategies/ttl_estimation_strategies/fixed_ttl_strategy.py:21-41 | The call raises `ObservedAsWritten`'s error with the tracking unchanged, or the tracking becomes its value |
| `FixedTtl.FixedTtlStrategy.Observe` | rlcache/strategies/ttl_estimation_strategies/fixed_ttl_strategy.py:21-41 | As intended: the tracking dict becomes `Observed(...)` |
| `FixedTtl.FixedTtlStrategy.EstimateTtl` | rlcache/strategies/ttl_estimation_strategies/fixed_ttl_strategy.py:43-44 | The configured ttl, whatever the key and whatever has been observed |
| `Vocab.SliceTo` | rlcache/utils/vocabulary.py:57-58 | `tokens[:n]` with Python's bounds: clamped, and counted from the end for negative `n` |
| `Vocab.Repeat` | rlcache/utils/vocabulary.py:62-63 | `[x] * n` has `max(n, 0)` copies of `x` |
| `Vocab.Padded` | rlcache/utils/vocabulary.py:62-63 | Pads to `pad_to_size` with the padding element, keeping the ids in front; longer lists and no size are left alone |
| `Vocab.PaddedToSize` | rlcache/utils/vocabulary.py:53-65 | With size `n >= 0` the answer has exactly `n` ids, the first `min(n, len)` tokens' ids in front |
| `Vocab.NegativeSizeDropsFromEnd` | rlcache/utils/vocabulary.py:57-63 | A negative size truncates from the end and pads nothing |
| `Vocab.Vocabulary.constructor` | rlcache/utils/vocabulary.py:12-18 | `%PAD%` first, then `%UNK%`, each only when asked for: PAD gets id 0, and UNK gets 1, or 0 without PAD |
| `Vocab.Vocabulary.AddOrGetId` | rlcache/utils/vocabulary.py:29-41 | A known token answers its id and nothing changes. A new token gets the next id, appended. Either way the id names the token |
| `Vocab.Vocabulary.IsUnk` | rlcache/utils/vocabulary.py:43-44 | Holds exactly for tokens not in the vocabulary |
| `Vocab.Vocabulary.GetIdOrUnk` | rlcache/utils/vocabulary.py:46-51 | The token's id, else `%UNK%`'s, else `KeyError`; nothing is added |
| `Vocab.Vocabulary.GetNameForId` | rlcache/utils/vocabulary.py:81-82 | `id_to_token[i]`, counting a negative index from the end; `IndexError` out of range |
| `Vocab.Vocabulary.Len` | rlcache/utils/vocabulary.py:84-85 | The number of distinct tokens |
| `Vocab.Vocabulary.IsEqualTo` | rlcache/utils/vocabulary.py:20-27 | Holds exactly for another vocabulary with the same token list |
| `Vocab.Vocabulary.IdsOrUnk` | rlcache/utils/vocabulary.py:74 | Each token's `get_id_or_unk`, in order, or `KeyError` when any token has none |
| `Vocab.Vocabulary.GetIdOrUnkMultiple` | rlcache/utils/vocabulary.py:67-79 | Truncate, look up without adding, then pad |
| `Vocab.Vocabulary.GetIdOrAddMultiple` | rlcache/utils/vocabulary.py:53-65 | The token list becomes the old one followed by each kept token not yet listed, first occurrence first. The answer is the kept tokens' ids, padded. Earlier ids never change |
| `Vocab.AddAll` | rlcache/utils/vocabulary.py:60 | The old token list is kept in front, and a token ends up listed exactly when it was listed before or is among the new tokens |
| `Vocab.AddAllFresh` | rlcache/utils/vocabulary.py:60 | Distinct tokens that are all new are appended exactly, in their order |
| `Vocab.AddAllIdempotent` | rlcache/utils/vocabulary.py:60 | Adding the same tokens a second time changes nothing |
| `Vocab.NameOfId` | rlcache/utils/vocabulary.py:81-82 | Round trip: the name of a token's id is the token |
| `Vocab.IdsAreDense` | rlcache/utils/vocabulary.py:38-41 | Every id below the size names a token whose id it is |
| `Vocab.UnknownReadsAsUnk` | rlcache/utils/vocabulary.py:46-51 | In the default vocabulary an unknown token reads as id 1 |
| `AgentActions.Encode` | rlcache/strategies/eviction_strategies/rl_eviction_state_converter.py:22-23 | A one-element array: 1 for true, 0 for false. The caching converter, rlcache/strategies/caching_strategies/rl_caching_state_converter.py:20-21, is the same code |
| `AgentActions.Decode` | rlcache/strategies/eviction_strategies/rl_eviction_state_converter.py:25-26 | `ValueError` unless the array has one element; otherwise whether that element is 1 |
| `AgentActions.DecodeEncode` | rlcache/strategies/eviction_strategies/rl_eviction_state_converter.py:22-26 | Decoding an encoded decision gives it back |
| `AgentActions.EncodeDecode` | rlcache/strategies/caching_strategies/rl_caching_state_converter.py:20-24 | Encoding a decoded action array gives it back |
| `EvictionConverter.SystemToAgentReward` | rlcache/strategies/eviction_strategies/rl_eviction_state_converter.py:28-74 | A malformed action raises `ValueError`; every reward comes from a decodable action |
| `EvictionConverter.ExpiredAfterEvict` | rlcache/strategies/eviction_strategies/rl_eviction_state_converter.py:36-40 | An expiry after an eviction decision earns 1, logged `TrueEvict` |
| `EvictionConverter.ExpiredAfterKeep` | rlcache/strategies/eviction_strategies/rl_eviction_state_converter.py:41-52 | An expiry of a kept key earns the hit gain, logged `TrueMiss` when positive and `MissEvict` otherwise |
| `EvictionConverter.InvalidatedReward` | rlcache/strategies/eviction_strategies/rl_eviction_state_converter.py:54-63 | An invalidation earns 1 (`TrueEvict`) after evicting and -1 (`MissEvict`) after keeping |
| `EvictionConverter.MissReward` | rlcache/strategies/eviction_strategies/rl_eviction_state_converter.py:65-71 | A miss after evicting earns -1 (`FalseEvict`); after keeping, the assertion fails |
| `EvictionConverter.OtherKindsReward` | rlcache/strategies/eviction_strategies/rl_eviction_state_converter.py:73-74 | Every other kind earns 1, unlogged |
| `EvictionConverter.RewardRange` | rlcache/strategies/eviction_strategies/rl_eviction_state_converter.py:28-74 | Every reward is -1 or 1, except an expiry after keeping |
| `CachingConverter.SystemToAgentRewardAsWritten` | rlcache/strategies/caching_strategies/rl_caching_state_converter.py:26-42 | As written, a malformed action raises `ValueError` |
| `CachingConverter.SystemToAgentReward` | rlcache/strategies/caching_strategies/rl_caching_state_converter.py:26-42 | As intended, a malformed action raises `ValueError` |
| `CachingConverter.CachedEarnsHits` | rlcache/strategies/caching_strategies/rl_caching_state_converter.py:27-31 | A decision to cache earns the hit count, in both readings |
| `CachingConverter.AsWrittenNotCachedAlwaysOne` | rlcache/strategies/caching_strategies/rl_caching_state_converter.py:35-41 | As written, a decision not to cache earns 1 whatever the step code |
| `CachingConverter.NotCachedReward` | rlcache/strategies/caching_strategies/rl_caching_state_converter.py:35-41 | As intended, not caching earns -1 after a miss, fails the assertion after a hit, and earns 1 otherwise |
| `CachingConverter.ReadingsDifferOnMiss` | rlcache/strategies/caching_strategies/rl_caching_state.py:21 | The two readings differ on an uncached key whose step code is `Miss` |

## Left out

- `_Timer`, `time.time()` and `monotonic`: every operation takes the time `now` as an argument.
- `__iter__`, `__repr__`, `__setstate__` and `__reduce__` of the linked-list caches: generators, representation and pickling.
- The `__links` dictionary's own order, which `__getlink` changes with `move_to_end` on `set` and `get`. Nothing reads that order, so the model keeps only the linked list.
- `ttl_cache.py` `capacity()` forwards to the wrapped storage, whose capacity the map model of that class does not carry.
- `inmemory_ttl.py` `size()` has an empty body and answers `None`; it is not modelled.
- Wrapped storages in the TTL wrappers are their contents, read like a dict with a default (`Lookup`), and their `set` always stores. The only storage in the source behaves differently. `InMemoryStorage.get` raises `KeyError` for an absent key (rlcache/backend/inmemory.py:17). The wrappers call `memory.set(key, value)` with no ttl, so that storage also expires entries on its own after its default of 500 seconds (rlcache/backend/inmemory.py:24). `TtlCacheV2.TTLCacheV2.Get`, `TtlCache.TTLCache.Get`, `InMemoryTtl.TTLCache.Get` and `TtlCacheV2.ReadAfterDeadline` hold for a storage that reads like a dict. With `InMemoryStorage`, a read of a key the sweep deleted raises `KeyError` instead of answering `None` or the default.
- `LruCache`: the wrapped storage is an assumption of the model. It is a map with a capacity whose `set` answers `False` exactly for a new key when it is already at capacity. No storage in the source behaves this way. The base `Storage.set` raises `NotImplementedError` (rlcache/backend/base.py:18-19). `InMemoryStorage.set` answers `True`, or raises `TypeError` once the dict holds more than `capacity` entries (rlcache/backend/inmemory.py:25-29). Over that real storage, the eviction branch at rlcache/eviction_strategies/lru_cache.py:23-28 is never taken, and the cache grows to `capacity + 1` entries, after which every `set` raises `TypeError`.
- `BaselineLru`: the wrapped `Cache` (rlcache/backend/__init__.py:10-30) is abstract, and every method of it raises `NotImplementedError`. The model assumes a map with a capacity whose `set` always writes and whose `get` reads like a dict with a default.
- Default arguments: `set`'s default ttl of 500 in rlcache/backend/ttl_cache.py:38 and the default capacity of 1024 in rlcache/backend/inmemory.py:12. Dafny methods take every argument, so callers pass them. `InMemory.InMemoryStorage.SetItem` is the one place where the default ttl is used, as `__setitem__` uses it.
- `LruEviction.LRUEvictionStrategy.constructor` models the older copy at rlcache/eviction_strategies/lru_eviction_strategy.py:21-23. The newer copy at rlcache/strategies/eviction_strategies/lru_eviction_strategy.py:23-24 calls `super().__init__(config)`, but `BaseStrategy.__init__` there takes `config` and `shared_stats` (rlcache/strategies/BaseStrategy.py:9). So constructing it raises `TypeError`, and no strategy of that copy is ever built. Its `observe` and `trim_cache` are the same as the older copy's.
- `FixedTtl.FixedTtlStrategy.Observe`, `FixedTtl.Observed`, `FixedTtl.OtherEventsUntrack` and `FixedTtl.RewriteRestarts` describe the update with the log line at rlcache/strategies/ttl_estimation_strategies/fixed_ttl_strategy.py:38 removed. As written, that line reads `self.episode_num`, which nothing assigns, so it raises `AttributeError` before `del` at line 39. `FixedTtl.ObservedAsWritten` and `FixedTtl.FixedTtlStrategy.ObserveAsWritten` model that.
- `CacheManagement.CacheManager`: the eviction strategy is passed as its decision for the trim at hand (`victim`), and the TTL strategy is the fixed one. The observers are an `ObserverContainer` whose deliveries are recorded; they are not wired to the LRU, FIFO or fixed-TTL observers.
- `CacheManagement.CacheManager.Get`: the counter `cache_size` is never updated, as in the source, so no contract mentions it.
- FIFO's incomplete-experience bookkeeping (`_incomplete_experiences`, `ttl_left`, the performance log) and its constructor, which calls an `expired_entry_callback` that `TTLCache` does not define.
- Logging: the `performance_logger` and `ttl_logger` lines. The eviction reward table records the label its log line would carry. The one log line that raises, in the fixed-TTL strategy, is modelled as written by `FixedTtl.ObservedAsWritten`.
- The strategies' `observer()` factories and configuration (`config['ttl']`); the fixed-TTL strategy takes its ttl directly.
- LFU eviction, the reinforcement-learning strategies, agent states and numpy state vectors, plotting, metrics export, HTTP servers and `main`.
- NumPy arrays in the action encoding are their flattened contents as a sequence of integers.
- `HeapQ.Pop`: the model does not prove that `heappop` keeps the heap property. The sweep does not need it, because it reads the entries by position.
- `TtlCacheV2.TTLCacheV2.Expire`: the re-time in place at line 68 does not re-heapify, so the heap property is not an invariant of this class and no contract claims it.

## Findings

| source | as written | input that shows it | evidently intended | confidence | as-written member | corrected member |
|---|---|---|---|---|---|---|
| rlcache/backend/ttl_cache_v2.py:14-19 | `_ExpirationListEntry` is a plain `@dataclass`, which defines no `<`, so `heappush` onto a non-empty heap raises `TypeError` | `set("a", v, 10)` then `set("b", w, 10)` on a fresh cache | `@dataclass(order=True)`: entries ordered by `(eviction_time, dirty_delete)`, the key excluded | high (not executed) | `TtlCacheV2.PushAsWritten`, `TtlCacheV2.SecondPushRaises` | `TtlCacheV2.TTLCacheV2.Set`, `TtlCacheV2.BeforeIsStrictWeakOrder`, `HeapQ.PushKeepsHeap` |
| rlcache/backend/inmemory_ttl.py:6, 129 | `expire` names `ObservationType.Expiration` of `rlcache/observers/observer.py`, which has no such member, so the first expired link raises `AttributeError` after its key was deleted | `set("a", v, 10)` at time 0, then any `set` at time 11 | notify with the `Expiration` kind of `rlcache/observer.py` | high (not executed) | `InMemoryTtl.TTLCache.ExpireAsWritten`, `InMemoryTtl.SetAfterExpiryRaises`, `ObserverDispatch.NoExpirationMember` | `InMemoryTtl.TTLCache.Expire`, `InMemoryTtl.SetAfterExpiryObserved` |
| rlcache/strategies/eviction_strategies/lru_eviction_strategy.py:18-19 | `if not observation_type.Eviction:` negates an enum member; a member is always truthy, so the test is always false and no key is ever re-inserted; the older copy at rlcache/eviction_strategies/lru_eviction_strategy.py:17-18 is the same | `observe("k", Write)` then `trim_cache(cache)` raises `KeyError` | `if observation_type != ObservationType.Eviction:` (move the key to the back) | high (not executed) | `LruEviction.LRUObserver.ObserveAsWritten`, `LruEviction.AsWrittenNeverTracks`, `LruEviction.TrimAfterWriteAsWritten` | `LruEviction.LRUObserver.Observe`, `LruEviction.TouchedMovesToBack`, `LruEviction.TrimAfterWrite` |
| rlcache/baselines/lru_cache.py:20 | `len(self.cache.size())` takes `len` of an `int`, so every `set` raises `TypeError` | any `set` | `self.cache.size() >= self.cache.capacity` | high (not executed) | `BaselineLru.LRUCache.SetAsWritten` | `BaselineLru.LRUCache.Set` |
| rlcache/strategies/caching_strategies/rl_caching_state_converter.py:35-38 | `step_code` is an `int` (rlcache/strategies/caching_strategies/rl_caching_state.py:21) compared with `ObservationType` members, which no `int` equals, so a decision not to cache always earns 1 and the assertion never fires | an uncached key whose `step_code` is 2 (`Miss`) earns 1 | compare with the members' values: -1 after a miss, an assertion failure after a hit | medium (not executed) | `CachingConverter.SystemToAgentRewardAsWritten`, `CachingConverter.AsWrittenNotCachedAlwaysOne` | `CachingConverter.SystemToAgentReward`, `CachingConverter.NotCachedReward`, `CachingConverter.ReadingsDifferOnMiss` |
| rlcache/strategies/ttl_estimation_strategies/fixed_ttl_strategy.py:38 | the log line reads `self.episode_num`, which neither the constructor (lines 14-19) nor `TtlStrategy`/`BaseStrategy` (rlcache/strategies/ttl_estimation_strategies/base_ttl_strategy.py:10-16, rlcache/strategies/base_strategy.py:9-12) assigns, so every event but a hit on a tracked key raises `AttributeError` and the key stays tracked | `observe("k", Write)` then `observe("k", Invalidate)` | log an episode number the strategy keeps, then untrack the key (or restart it on a write) | high (not executed) | `FixedTtl.ObservedAsWritten`, `FixedTtl.FixedTtlStrategy.ObserveAsWritten`, `FixedTtl.InvalidateAfterWriteRaises` | `FixedTtl.Observed`, `FixedTtl.FixedTtlStrategy.Observe`, `FixedTtl.OtherEventsUntrack`, `FixedTtl.RewriteRestarts` |

Hazards that are modelled as written and are not claimed as bugs:

- In `TTLCacheV2`, the index is never cleaned, a key's entry is re-timed in place, and the sweep's `for` loop skips entries while it pops: `NeverExpiresAfterReset`, `SweepSkipsEntries`.
- In the linked-list caches, an expired link behind a live one stays readable: `TtlCache.StaleReadBehindLiveHead`.
- `InMemoryStorage.set` lets the dict reach `capacity + 1` entries: `InMemory.CapacityExceededByOne`.
- The baseline LRU stamps keys it only read, which can let the cache outgrow its capacity: `BaselineLru.ReadOnlyKeyShieldsStoredOne`.
