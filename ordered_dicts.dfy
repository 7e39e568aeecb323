/**
 * Python's `collections.OrderedDict` as the eviction strategies use it: a
 * sequence of items in insertion order, one per key.  Assigning to a present
 * key keeps its position; assigning a new key appends it; `del`/`pop` remove
 * the key and keep the order of the rest; `popitem(last=False)` takes the
 * front item.
 */
module OrderedDicts {
  import opened Prelude

  datatype Item<V> = Item(key: Key, value: V)

  /** The keys, front to back. */
  function Keys<V>(d: seq<Item<V>>): (r: seq<Key>)
    ensures |r| == |d| && forall i :: 0 <= i < |d| ==> r[i] == d[i].key
  {
    seq(|d|, i requires 0 <= i < |d| => d[i].key)
  }

  /** One item per key. */
  predicate Unique<V>(d: seq<Item<V>>)
  {
    forall i, j :: 0 <= i < j < |d| ==> d[i].key != d[j].key
  }

  /** The position of `key`: its first item. */
  function IndexOf<V>(d: seq<Item<V>>, key: Key): (i: nat)
    requires key in Keys(d)
    ensures i < |d| && d[i].key == key
    ensures forall j :: 0 <= j < i ==> d[j].key != key
  {
    if d[0].key == key then 0
    else
      InTail(d, key);
      1 + IndexOf(d[1..], key)
  }

  /** A key present but not at the front is present in the rest. */
  lemma InTail<V>(d: seq<Item<V>>, key: Key)
    requires key in Keys(d) && d[0].key != key
    ensures key in Keys(d[1..])
  {
    var j :| 0 <= j < |d| && Keys(d)[j] == key;
    assert Keys(d[1..])[j - 1] == key;
  }

  /** `d.get(key)`. */
  function Get<V>(d: seq<Item<V>>, key: Key): (r: Option<V>)
    ensures r.None? <==> key !in Keys(d)
    ensures r.Some? ==> Item(key, r.value) in d
  {
    if key in Keys(d) then Some(d[IndexOf(d, key)].value) else None
  }

  /** `d[key] = value`. */
  function Assign<V>(d: seq<Item<V>>, key: Key, value: V): (r: seq<Item<V>>)
    ensures key in Keys(d) ==> |r| == |d| && Keys(r) == Keys(d)
    ensures key in Keys(d) ==> forall j :: 0 <= j < |d| && j != IndexOf(d, key) ==> r[j] == d[j]
    ensures key !in Keys(d) ==> r == d + [Item(key, value)]
  {
    if key in Keys(d) then d[IndexOf(d, key) := Item(key, value)] else d + [Item(key, value)]
  }

  /** `del d[key]` / `d.pop(key)` on a present key: the rest keep their order. */
  function Remove<V>(d: seq<Item<V>>, key: Key): (r: seq<Item<V>>)
    ensures key !in Keys(d) ==> r == d
    ensures key in Keys(d) ==> |r| == |d| - 1
    ensures forall it :: it in r ==> it in d
    ensures key in Keys(d) ==> exists i :: 0 <= i < |d| && d[i].key == key && r == d[..i] + d[i + 1..]
  {
    if key in Keys(d) then
      var i := IndexOf(d, key);
      d[..i] + d[i + 1..]
    else d
  }

  /** `popitem(last=False)`: the front item and the rest, or `KeyError` when empty. */
  function PopFirst<V>(d: seq<Item<V>>): (r: Result<(Item<V>, seq<Item<V>>)>)
    ensures r.Err? <==> |d| == 0
    ensures r.Err? ==> r.error == KeyError
    ensures r.Ok? ==> [r.value.0] + r.value.1 == d
  {
    if |d| == 0 then Err(KeyError) else Ok((d[0], d[1..]))
  }

  /** After an assignment the key reads back the assigned value. */
  lemma AssignThenGet<V>(d: seq<Item<V>>, key: Key, value: V)
    requires Unique(d)
    ensures Get(Assign(d, key, value), key) == Some(value)
  {
    var r := Assign(d, key, value);
    if key in Keys(d) {
      assert r[IndexOf(d, key)] == Item(key, value);
      assert IndexOf(r, key) == IndexOf(d, key);
    } else {
      assert r[|d|] == Item(key, value);
      assert Keys(r)[|d|] == key;
      assert IndexOf(r, key) == |d|;
    }
  }

  /** An assignment keeps one item per key. */
  lemma AssignKeepsUnique<V>(d: seq<Item<V>>, key: Key, value: V)
    requires Unique(d)
    ensures Unique(Assign(d, key, value))
  {
    var r := Assign(d, key, value);
    if key !in Keys(d) {
      forall i | 0 <= i < |d|
        ensures d[i].key != key
      {
        assert Keys(d)[i] == d[i].key;
      }
    }
  }

  /** A present key's item is its only one; removing it leaves exactly the other keys. */
  lemma RemovedKeys<V>(d: seq<Item<V>>, key: Key, other: Key)
    requires Unique(d)
    ensures other in Keys(Remove(d, key)) <==> other in Keys(d) && other != key
  {
    if key in Keys(d) {
      var i := IndexOf(d, key);
      assert Remove(d, key) == d[..i] + d[i + 1..];
      if other in Keys(d[..i] + d[i + 1..]) {
        RemainingWereThere(d, i, other);
      }
      if other in Keys(d) && other != key {
        OthersRemain(d, i, other);
      }
    }
  }

  /** A key left after removing position `i` of a one-item-per-key dictionary was there, at another position. */
  lemma RemainingWereThere<V>(d: seq<Item<V>>, i: nat, other: Key)
    requires Unique(d) && i < |d|
    requires other in Keys(d[..i] + d[i + 1..])
    ensures other in Keys(d) && other != d[i].key
  {
    var r := d[..i] + d[i + 1..];
    var j :| 0 <= j < |r| && Keys(r)[j] == other;
    var j' := if j < i then j else j + 1;
    assert r[j] == d[j'] && Keys(d)[j'] == other;
  }

  /** A key at a position other than `i` is left after removing position `i`. */
  lemma OthersRemain<V>(d: seq<Item<V>>, i: nat, other: Key)
    requires i < |d| && other in Keys(d) && other != d[i].key
    ensures other in Keys(d[..i] + d[i + 1..])
  {
    var r := d[..i] + d[i + 1..];
    var j :| 0 <= j < |d| && Keys(d)[j] == other;
    var j' := if j < i then j else j - 1;
    assert r[j'] == d[j] && Keys(r)[j'] == other;
  }

  /** Removing keeps one item per key. */
  lemma RemoveKeepsUnique<V>(d: seq<Item<V>>, key: Key)
    requires Unique(d)
    ensures Unique(Remove(d, key))
  {
    if key in Keys(d) {
      var i := IndexOf(d, key);
      var r := d[..i] + d[i + 1..];
      forall a, b | 0 <= a < b < |r|
        ensures r[a].key != r[b].key
      {
        var a' := if a < i then a else a + 1;
        var b' := if b < i then b else b + 1;
        assert r[a] == d[a'] && r[b] == d[b'];
      }
    }
  }

  /** Assigning a new key then removing it gives back the dictionary as it was. */
  lemma AssignNewThenRemove<V>(d: seq<Item<V>>, key: Key, value: V)
    requires key !in Keys(d)
    ensures Remove(Assign(d, key, value), key) == d
  {
    var r := d + [Item(key, value)];
    assert Keys(r)[|d|] == key;
    forall j | 0 <= j < |d|
      ensures r[j].key != key
    {
      assert Keys(d)[j] == d[j].key;
    }
    assert IndexOf(r, key) == |d|;
    assert r[..|d|] == d;
  }
}
