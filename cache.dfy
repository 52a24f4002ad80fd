/**
 * The in-process TTL cache (apps/api/src/utils/cache.ts): one string-keyed map
 * of entries that carry an expiry time in milliseconds. The clock reading and
 * the outcome the producer would have if it ran are parameters.
 */
module Cache {

  datatype Entry<T> = Entry(exp: int, val: T)

  /** What awaiting the producer gives: a value, or a rejection that propagates. */
  datatype Produced<T> = Produced(val: T) | Threw

  /** What the caller of `cacheWrap` sees. */
  datatype Outcome<T> = Returned(val: T) | Rejected

  /** One call's effect: the new map, the caller's outcome, and whether the producer ran. */
  datatype Step<T> = Step(store: map<string, Entry<T>>, outcome: Outcome<T>, ran: bool)

  /** An entry counts as a hit only while its expiry lies strictly after `now`. */
  predicate IsHit<T>(store: map<string, Entry<T>>, key: string, now: int)
  {
    key in store && store[key].exp > now
  }

  /** `cacheWrap(key, ttlSec, fn)` with `Date.now()` read as `now`. */
  function Wrap<T>(store: map<string, Entry<T>>, key: string, ttlSec: int, now: int, produced: Produced<T>): (r: Step<T>)
    ensures r.ran <==> !IsHit(store, key, now)
    ensures !r.ran ==> r.outcome == Returned(store[key].val) && r.store == store
    ensures r.outcome.Rejected? <==> r.ran && produced.Threw?
    ensures r.outcome.Rejected? ==> r.store == store
    ensures r.ran && r.outcome.Returned? ==>
      r.outcome.val == produced.val && r.store == store[key := Entry(now + ttlSec * 1000, produced.val)]
    ensures store.Keys <= r.store.Keys <= store.Keys + {key}
    ensures forall k :: k in store && k != key ==> r.store[k] == store[k]
  {
    if IsHit(store, key, now) then Step(store, Returned(store[key].val), false)
    else match produced
      case Threw => Step(store, Rejected, true)
      case Produced(v) => Step(store[key := Entry(now + ttlSec * 1000, v)], Returned(v), true)
  }

  /** An entry whose expiry equals the current time is already stale. */
  lemma ExpiryIsExclusive<T>(store: map<string, Entry<T>>, key: string, ttlSec: int, now: int, produced: Produced<T>)
    requires key in store && store[key].exp == now
    ensures Wrap(store, key, ttlSec, now, produced).ran
  {
  }

  /**
   * After a call that ran the producer successfully, any later call for the
   * same key before the TTL has elapsed returns that very value and does not run
   * the producer again, whatever it would have produced.
   */
  lemma RepeatWithinTtlHits<T>(store: map<string, Entry<T>>, key: string, ttlSec: int, now: int, produced: Produced<T>,
                               later: int, producedLater: Produced<T>)
    requires produced.Produced? && !IsHit(store, key, now)
    requires now <= later < now + ttlSec * 1000
    ensures var first := Wrap(store, key, ttlSec, now, produced);
      var second := Wrap(first.store, key, ttlSec, later, producedLater);
      !second.ran && second.outcome == first.outcome == Returned(produced.val) && second.store == first.store
  {
  }

  /** Calls for one key never disturb the entry of another key. */
  lemma OtherKeysIndependent<T>(store: map<string, Entry<T>>, key: string, other: string, ttlSec: int, now: int, produced: Produced<T>)
    requires other != key
    ensures var r := Wrap(store, key, ttlSec, now, produced);
      (other in r.store <==> other in store) && (other in store ==> r.store[other] == store[other])
  {
  }

  /** The cache as the module-level map that `cacheWrap` reads and overwrites. */
  class TtlCache<T> {
    var store: map<string, Entry<T>>

    /** The map starts empty when the module loads. */
    constructor()
      ensures store == map[]
    {
      store := map[];
    }

    method CacheWrap(key: string, ttlSec: int, now: int, produced: Produced<T>) returns (outcome: Outcome<T>, ran: bool)
      modifies this
      ensures Wrap(old(store), key, ttlSec, now, produced) == Step(store, outcome, ran)
    {
      if key in store {
        var hit := store[key];
        if hit.exp > now {
          return Returned(hit.val), false;
        }
      }
      ran := true;
      match produced {
        case Threw =>
          outcome := Rejected;
        case Produced(v) =>
          store := store[key := Entry(now + ttlSec * 1000, v)];
          outcome := Returned(v);
      }
    }
  }
}
