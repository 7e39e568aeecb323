/**
 * `rlcache/observers/observer.py`: the four event kinds the cache manager
 * publishes, and `ObserverContainer`, which hands each event to every observer
 * in list order.  There is no isolation: the first observer that raises stops
 * the fan-out, and the exception reaches the caller.
 */
module ObserverDispatch {
  import opened Prelude

  datatype ObservationType = Read | Write | Update | Eviction
  {
    /** The member's `.value`. */
    function Value(): int
    {
      match this
      case Read => 1
      case Write => 2
      case Update => 3
      case Eviction => 4
    }
  }

  /**
   * `ObservationType.<name>`: attribute lookup on the enum class, which raises
   * `AttributeError` for a name that is not one of its four members.
   */
  function Member(name: string): (r: Result<ObservationType>)
    ensures r.Ok? <==> name in {"Read", "Write", "Update", "Eviction"}
    ensures r.Ok? ==> name == (match r.value
                               case Read => "Read"
                               case Write => "Write"
                               case Update => "Update"
                               case Eviction => "Eviction")
    ensures r.Err? ==> r.error == AttributeError
  {
    if name == "Read" then Ok(Read)
    else if name == "Write" then Ok(Write)
    else if name == "Update" then Ok(Update)
    else if name == "Eviction" then Ok(Eviction)
    else Err(AttributeError)
  }

  /** The enum has no `Expiration` member, although the TTL code of this version asks for one. */
  lemma NoExpirationMember()
    ensures Member("Expiration") == Err(AttributeError)
  {
  }

  /** The values are one-to-one. */
  lemma ValueInjective(s: ObservationType, t: ObservationType)
    ensures s.Value() == t.Value() ==> s == t
  {
  }

  /**
   * An element of the observer list: an observer object, or the `None` that a
   * strategy's default `observer()` returns, on which `.observe` raises
   * `AttributeError`.
   */
  datatype Observer = Subscriber(id: nat) | NoObserver

  /** A call `observer.observe(key, observation_type)` that was made. */
  datatype Delivery = Delivery(observer: nat, key: Key, kind: ObservationType)

  /** How many observers the fan-out reaches before the first `None` (all of them if there is none). */
  function Reached(observers: seq<Observer>): (n: nat)
    ensures n <= |observers|
    ensures forall j :: 0 <= j < n ==> observers[j].Subscriber?
    ensures n < |observers| ==> observers[n].NoObserver?
  {
    if |observers| == 0 || observers[0].NoObserver? then 0
    else
      var n := Reached(observers[1..]);
      assert forall j :: 1 <= j <= n ==> observers[j] == observers[1..][j - 1];
      1 + n
  }

  /** The calls made to the observers `observers`, in list order, each with the same key and kind. */
  function Deliveries(observers: seq<Observer>, key: Key, kind: ObservationType): (r: seq<Delivery>)
    requires forall j :: 0 <= j < |observers| ==> observers[j].Subscriber?
    ensures |r| == |observers|
    ensures forall j :: 0 <= j < |observers| ==> r[j] == Delivery(observers[j].id, key, kind)
  {
    seq(|observers|, j requires 0 <= j < |observers| => Delivery(observers[j].id, key, kind))
  }

  /** The deliveries one `observe` call makes: to each observer up to the first `None`. */
  function FanOut(observers: seq<Observer>, key: Key, kind: ObservationType): (r: seq<Delivery>)
    ensures |r| == Reached(observers)
    ensures forall j :: 0 <= j < |r| ==> r[j] == Delivery(observers[j].id, key, kind)
  {
    Deliveries(observers[..Reached(observers)], key, kind)
  }

  class ObserverContainer {
    const observers: seq<Observer>
    /** Every delivery made so far, in order. */
    var delivered: seq<Delivery>

    constructor (observers: seq<Observer>)
      ensures this.observers == observers && delivered == []
    {
      this.observers := observers;
      delivered := [];
    }

    /**
     * `observe(key, observation_type)`: delivers to every observer in list
     * order, and stops with `AttributeError` at the first `None`.
     */
    method Observe(key: Key, kind: ObservationType) returns (o: Outcome)
      modifies this
      ensures delivered == old(delivered) + FanOut(observers, key, kind)
      ensures o == Done <==> Reached(observers) == |observers|
      ensures o != Done ==> o == Raised(AttributeError)
    {
      var n := Reached(observers);
      for j := 0 to |observers|
        invariant j <= n
        invariant delivered == old(delivered) + Deliveries(observers[..j], key, kind)
      {
        if observers[j].NoObserver? {
          return Raised(AttributeError);
        }
        assert observers[..j + 1] == observers[..j] + [observers[j]];
        delivered := delivered + [Delivery(observers[j].id, key, kind)];
      }
      assert observers[..|observers|] == observers;
      o := Done;
    }
  }

  /** With no `None` in the list every observer gets the event exactly once, in list order. */
  lemma EveryObserverOnce(observers: seq<Observer>, key: Key, kind: ObservationType)
    requires forall j :: 0 <= j < |observers| ==> observers[j].Subscriber?
    ensures Reached(observers) == |observers|
    ensures var d := FanOut(observers, key, kind);
            |d| == |observers| && forall j :: 0 <= j < |d| ==> d[j].observer == observers[j].id
  {
  }

  /** A `None` in the list stops every call at the same place: the observers behind it never hear anything. */
  lemma NoneShieldsTheRest(observers: seq<Observer>, key: Key, kind: ObservationType, j: nat)
    requires j < |observers| && observers[j].NoObserver?
    ensures |FanOut(observers, key, kind)| <= j
  {
  }
}
