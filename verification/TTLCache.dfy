/**
  `TTLCache` of src/lib/cache.ts with its mutable fields. The store operations are
  proved to do what CacheSpec says; the three parts of `remember` what SingleFlight says.
 */
module TTLCaches {
  import opened Wrappers
  import opened CacheSpec
  import SingleFlight

  datatype Stats = Stats(size: nat, maxEntries: int, hits: nat, misses: nat, hitRate: real, inflight: nat)

  /** What a `remember` call does before its first await. */
  datatype Begun<V> = Cached(value: V) | Joined(flight: nat) | Started(flight: nat)

  class TTLCache<V> {
    const maxEntries: int
    var store: Store<V>
    var inflight: map<Key, nat>
    var hits: nat
    var misses: nat

    ghost function Abs(): State<V>
      reads this
    {
      State(store, hits, misses)
    }

    constructor (maxEntries: int)
      ensures this.maxEntries == maxEntries
      ensures Abs() == Cleared() && inflight == map[] && Valid(maxEntries, Abs())
    {
      this.maxEntries := maxEntries;
      store, inflight, hits, misses := Store([], map[]), map[], 0, 0;
    }

    method Get(key: Key, now: int) returns (value: Option<V>)
      requires Valid(maxEntries, Abs())
      modifies this
      ensures (Abs(), value) == CacheSpec.Get(old(Abs()), key, now)
      ensures Valid(maxEntries, Abs()) && inflight == old(inflight)
    {
      GetValid(maxEntries, Abs(), key, now);
      if key !in store.items {
        misses := misses + 1;
        return None;
      }
      var entry := store.items[key];
      if entry.expiresAt < now {
        store := MapDelete(store, key);
        misses := misses + 1;
        return None;
      }
      store := MapDelete(store, key);
      store := MapSet(store, key, entry);
      hits := hits + 1;
      value := Some(entry.value);
    }

    method Set(key: Key, value: V, ttlMs: int, now: int)
      requires Valid(maxEntries, Abs())
      modifies this
      ensures Abs() == CacheSpec.Set(maxEntries, old(Abs()), key, value, ttlMs, now)
      ensures Valid(maxEntries, Abs()) && inflight == old(inflight)
    {
      SetValid(maxEntries, Abs(), key, value, ttlMs, now);
      if |store.keys| >= maxEntries && key !in store.items {
        if store.keys != [] {
          store := MapDelete(store, store.keys[0]);
        }
      }
      store := MapSet(store, key, Entry(value, now + ttlMs));
    }

    method Delete(key: Key)
      requires Valid(maxEntries, Abs())
      modifies this
      ensures Abs() == CacheSpec.Delete(old(Abs()), key)
      ensures Valid(maxEntries, Abs()) && inflight == old(inflight)
    {
      RemoveMembers(store.keys, key);
      store := MapDelete(store, key);
    }

    method Clear()
      modifies this
      ensures Abs() == Cleared() && inflight == map[] && Valid(maxEntries, Abs())
    {
      store, inflight, hits, misses := Store([], map[]), map[], 0, 0;
    }

    /** `remember` up to its first await; a loader it starts becomes flight number `next`. */
    method RememberBegin(key: Key, now: int, next: nat) returns (begun: Begun<V>)
      requires Valid(maxEntries, Abs())
      modifies this
      ensures Valid(maxEntries, Abs())
      ensures forall flights: seq<SingleFlight.Flight<V>>, callers: seq<SingleFlight.Caller<V>>, ttl: int
                | |flights| == next ::
                var s := SingleFlight.System(old(Abs()), old(inflight), flights, callers);
                var s' := SingleFlight.Step(maxEntries, s, SingleFlight.Call(key, ttl, now));
                && s'.cache == Abs() && s'.inflight == inflight
                && (begun.Started? <==> |s'.flights| > |flights|)
                && s'.callers == callers +
                     [if begun.Cached? then SingleFlight.Caller(key, None, Some(Success(begun.value)))
                      else SingleFlight.Caller(key, Some(begun.flight), None)]
    {
      var cached := Get(key, now);
      if cached.Some? {
        return Cached(cached.value);
      }
      if key in inflight {
        return Joined(inflight[key]);
      }
      inflight := inflight[key := next];
      begun := Started(next);
    }

    /** The `then` callback of a loader that succeeded. */
    method RememberThen(key: Key, value: V, ttlMs: int, now: int) returns (result: V)
      requires Valid(maxEntries, Abs())
      modifies this
      ensures result == value
      ensures Abs() == CacheSpec.Set(maxEntries, old(Abs()), key, value, ttlMs, now)
      ensures Valid(maxEntries, Abs()) && inflight == old(inflight)
    {
      Set(key, value, ttlMs, now);
      result := value;
    }

    method RememberFinally(key: Key)
      modifies this`inflight
      ensures inflight == old(inflight) - {key}
    {
      inflight := inflight - {key};
    }

    method TakeStats() returns (stats: Stats)
      requires Valid(maxEntries, Abs())
      ensures stats.size == |store.items| <= Capacity(maxEntries)
      ensures stats.hits == hits && stats.misses == misses
      ensures stats.hitRate * (hits + misses) as real == hits as real
      ensures hits + misses == 0 ==> stats.hitRate == 0.0
      ensures stats.inflight == |inflight| && stats.maxEntries == maxEntries
    {
      KeysCount(store);
      var total := hits + misses;
      stats := Stats(|store.keys|, maxEntries, hits, misses,
                     if total == 0 then 0.0 else hits as real / total as real, |inflight|);
    }
  }

  lemma {:induction false} DistinctCount(keys: seq<Key>)
    requires Distinct(keys)
    ensures |set k | k in keys| == |keys|
  {
    if keys == [] {
      assert (set k | k in keys) == {};
    } else {
      DistinctCount(keys[1..]);
      assert keys[0] !in keys[1..];
      assert (set k | k in keys) == {keys[0]} + set k | k in keys[1..];
    }
  }

  /** The `size` of the map is the number of its entries. */
  lemma KeysCount<V>(m: Store<V>)
    requires WellFormed(m)
    ensures |m.keys| == |m.items|
  {
    DistinctCount(m.keys);
    assert m.items.Keys == set k | k in m.keys;
    assert |m.items| == |m.items.Keys|;
  }
}
