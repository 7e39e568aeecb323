/**
 * Python's `heapq` on a list, as `TTLCacheV2` uses it: `heappush` appends
 * and sifts the new item towards the root, `heappop` moves the last item to
 * the root and sifts it down (bottom-up, then back up), exactly as
 * `_siftdown` and `_siftup` of the library do.  The library moves a "hole"
 * instead of swapping; the swaps below put every item where the hole does.
 * `less` is the `<` of the items.
 */
module HeapQ {

  function Parent(i: nat): nat
    requires i > 0
  {
    (i - 1) / 2
  }

  function Swap<T>(h: seq<T>, i: nat, j: nat): (r: seq<T>)
    requires i < |h| && j < |h|
    ensures |r| == |h| && multiset(r) == multiset(h)
    ensures r[i] == h[j] && r[j] == h[i]
    ensures forall k :: 0 <= k < |h| && k != i && k != j ==> r[k] == h[k]
  {
    h[i := h[j]][j := h[i]]
  }

  /** `_siftdown(heap, 0, pos)`: the item at `pos` climbs while it is less than its parent. */
  function SiftDown<T>(h: seq<T>, pos: nat, less: (T, T) -> bool): (r: seq<T>)
    requires pos < |h|
    ensures |r| == |h| && multiset(r) == multiset(h)
    decreases pos
  {
    if pos > 0 && less(h[pos], h[Parent(pos)]) then
      SiftDown(Swap(h, pos, Parent(pos)), Parent(pos), less)
    else
      h
  }

  /**
   * `_siftup(heap, pos)` for a heap popped at the root: the item at `pos`
   * descends along the smaller children down to a leaf, then climbs back with
   * `_siftdown(heap, 0, leaf)`.
   */
  function SiftUp<T>(h: seq<T>, pos: nat, less: (T, T) -> bool): (r: seq<T>)
    requires pos < |h|
    ensures |r| == |h| && multiset(r) == multiset(h)
    decreases |h| - pos
  {
    var child := 2 * pos + 1;
    if child < |h| then
      var c := if child + 1 < |h| && !less(h[child], h[child + 1]) then child + 1 else child;
      SiftUp(Swap(h, pos, c), c, less)
    else
      SiftDown(h, pos, less)
  }

  /** `heappush(heap, item)`. */
  function Push<T>(h: seq<T>, x: T, less: (T, T) -> bool): (r: seq<T>)
    ensures |r| == |h| + 1
    ensures multiset(r) == multiset(h) + multiset{x}
  {
    SiftDown(h + [x], |h|, less)
  }

  /** `heappop(heap)`: the root, and the list left behind. */
  function Pop<T>(h: seq<T>, less: (T, T) -> bool): (r: (T, seq<T>))
    requires |h| > 0
    ensures r.0 == h[0]
    ensures |r.1| == |h| - 1
    ensures multiset(r.1) + multiset{r.0} == multiset(h)
    ensures forall x :: x in r.1 ==> x in h
  {
    var last := h[|h| - 1];
    var rest := h[..|h| - 1];
    if |rest| == 0 then
      (last, [])
    else
      var r1 := SiftUp(rest[0 := last], 0, less);
      PopContents(h, r1);
      (rest[0], r1)
  }

  lemma PopContents<T>(h: seq<T>, r1: seq<T>)
    requires |h| > 1
    requires multiset(r1) == multiset(h[..|h| - 1][0 := h[|h| - 1]])
    ensures multiset(r1) + multiset{h[0]} == multiset(h)
    ensures forall x :: x in r1 ==> x in h
  {
    var last := h[|h| - 1];
    var rest := h[..|h| - 1];
    assert h == rest + [last];
    assert rest == [rest[0]] + rest[1..];
    assert rest[0 := last] == [last] + rest[1..];
    forall x | x in r1
      ensures x in h
    {
      assert x in multiset(r1);
    }
  }

  /** The heap invariant: no item is less than its parent. */
  ghost predicate IsHeap<T>(h: seq<T>, less: (T, T) -> bool)
  {
    forall i :: 0 < i < |h| ==> !less(h[i], h[Parent(i)])
  }

  /** `less` is a strict weak order: irreflexive, transitive, and incomparability is transitive. */
  ghost predicate StrictWeakOrder<T(!new)>(less: (T, T) -> bool)
  {
    && (forall a :: !less(a, a))
    && (forall a, b, c :: less(a, b) && less(b, c) ==> less(a, c))
    && (forall a, b, c :: !less(a, b) && !less(b, c) ==> !less(a, c))
  }

  /**
   * The state `SiftDown` works in: a heap except that the item at `pos` may
   * be less than its parent, and `pos`'s parent is not greater than `pos`'s children.
   */
  ghost predicate HeapBut<T>(h: seq<T>, pos: nat, less: (T, T) -> bool)
    requires pos < |h|
  {
    && (forall i :: 0 < i < |h| && i != pos ==> !less(h[i], h[Parent(i)]))
    && (pos > 0 ==> forall i :: 0 < i < |h| && Parent(i) == pos ==> !less(h[i], h[Parent(pos)]))
  }

  lemma {:induction false} SiftDownRestoresHeap<T(!new)>(h: seq<T>, pos: nat, less: (T, T) -> bool)
    requires pos < |h| && StrictWeakOrder(less) && HeapBut(h, pos, less)
    ensures IsHeap(SiftDown(h, pos, less), less)
    decreases pos
  {
    if pos > 0 && less(h[pos], h[Parent(pos)]) {
      var p := Parent(pos);
      var h' := Swap(h, pos, p);
      forall i | 0 < i < |h'| && i != p
        ensures !less(h'[i], h'[Parent(i)])
      {
        if i == pos {
          // the old parent came down to pos, the climbing item is now its parent
        } else if Parent(i) == pos {
          // a child of pos: not less than the old parent, which now sits at pos
        } else if Parent(i) == p {
          // a sibling of pos: not less than the old parent, which is greater than the climbing item
        }
      }
      if p > 0 {
        forall i | 0 < i < |h'| && Parent(i) == p
          ensures !less(h'[i], h'[Parent(p)])
        {
          if i == pos {
          } else {
          }
        }
      }
      SiftDownRestoresHeap(h', p, less);
    }
  }

  /** `heappush` onto a heap gives a heap. */
  lemma PushKeepsHeap<T(!new)>(h: seq<T>, x: T, less: (T, T) -> bool)
    requires StrictWeakOrder(less) && IsHeap(h, less)
    ensures IsHeap(Push(h, x, less), less)
  {
    var h' := h + [x];
    assert HeapBut(h', |h|, less);
    SiftDownRestoresHeap(h', |h|, less);
  }

  /** On a heap the root is a least item: nothing in the heap is less than it. */
  lemma {:induction false} RootIsLeast<T(!new)>(h: seq<T>, less: (T, T) -> bool, i: nat)
    requires StrictWeakOrder(less) && IsHeap(h, less) && i < |h|
    ensures !less(h[i], h[0])
    decreases i
  {
    if i > 0 {
      RootIsLeast(h, less, Parent(i));
    }
  }
}
