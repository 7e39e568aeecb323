/**
 * `rlcache/backend/base.py`: the `Storage` base class.  Its only logic is
 * `is_full`; every other method is abstract.  Capacity `None` means unbounded.
 */
module StorageBase {
  import opened Prelude

  /** `is_full`: no room for one more entry. */
  function IsFull(capacity: Option<int>, size: nat): bool
  {
    if capacity.None? then false else size + 1 > capacity.value
  }

  /** An unbounded storage is never full. */
  lemma UnboundedNeverFull(size: nat)
    ensures !IsFull(None, size)
  {
  }

  /** With a capacity, full means the size has reached it. */
  lemma FullIffAtCapacity(c: int, size: nat)
    ensures IsFull(Some(c), size) <==> size >= c
  {
  }

  /** A storage of capacity zero (or less) is always full, even when empty. */
  lemma ZeroCapacityAlwaysFull(c: int, size: nat)
    requires c <= 0
    ensures IsFull(Some(c), size)
  {
  }

  /** Removing an entry from a full storage of capacity `c` leaves room for one. */
  lemma RemovalMakesRoom(c: int, size: nat)
    requires IsFull(Some(c), size) && size == c && size > 0
    ensures !IsFull(Some(c), size - 1)
  {
  }
}
