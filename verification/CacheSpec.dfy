/**
  The store of src/lib/cache.ts: a JavaScript `Map`, which iterates in insertion
  order, used as an LRU list with expiry times. `None` stands for `undefined`, so
  stored values are always defined.
 */
module CacheSpec {
  import opened Wrappers

  type Key = string

  datatype Entry<V> = Entry(value: V, expiresAt: int)

  /** A `Map`: setting a present key keeps its place, a new key goes last. */
  datatype Store<V> = Store(keys: seq<Key>, items: map<Key, Entry<V>>)

  datatype State<V> = State(store: Store<V>, hits: nat, misses: nat)

  predicate Distinct(keys: seq<Key>) {
    forall i, j :: 0 <= i < j < |keys| ==> keys[i] != keys[j]
  }

  ghost predicate WellFormed<V>(m: Store<V>) {
    Distinct(m.keys) && (forall k :: k in m.keys <==> k in m.items)
  }

  function Remove(keys: seq<Key>, k: Key): seq<Key> {
    if keys == [] then [] else (if keys[0] == k then [] else [keys[0]]) + Remove(keys[1..], k)
  }

  function MapDelete<V>(m: Store<V>, k: Key): Store<V> {
    Store(Remove(m.keys, k), m.items - {k})
  }

  function MapSet<V>(m: Store<V>, k: Key, e: Entry<V>): Store<V> {
    Store(if k in m.items then m.keys else m.keys + [k], m.items[k := e])
  }

  // ---- the operations ----

  function Get<V>(s: State<V>, k: Key, now: int): (State<V>, Option<V>) {
    if k !in s.store.items then (s.(misses := s.misses + 1), None)
    else
      var entry := s.store.items[k];
      if entry.expiresAt < now then (s.(store := MapDelete(s.store, k), misses := s.misses + 1), None)
      else (s.(store := MapSet(MapDelete(s.store, k), k, entry), hits := s.hits + 1), Some(entry.value))
  }

  function Set<V>(maxEntries: int, s: State<V>, k: Key, value: V, ttl: int, now: int): State<V> {
    var m := if |s.store.keys| >= maxEntries && k !in s.store.items && s.store.keys != []
             then MapDelete(s.store, s.store.keys[0]) else s.store;
    s.(store := MapSet(m, k, Entry(value, now + ttl)))
  }

  function Delete<V>(s: State<V>, k: Key): State<V> {
    s.(store := MapDelete(s.store, k))
  }

  function Cleared<V>(): State<V> {
    State(Store([], map[]), 0, 0)
  }

  /** With `maxEntries` of 0 or less there is nothing to evict from an empty store, so one entry still fits. */
  function Capacity(maxEntries: int): nat {
    if maxEntries < 1 then 1 else maxEntries
  }

  ghost predicate Valid<V>(maxEntries: int, s: State<V>) {
    WellFormed(s.store) && |s.store.keys| <= Capacity(maxEntries)
  }

  lemma {:induction false} RemoveMembers(keys: seq<Key>, k: Key)
    ensures forall x :: x in Remove(keys, k) <==> x in keys && x != k
    ensures |Remove(keys, k)| <= |keys|
    ensures k in keys ==> |Remove(keys, k)| < |keys|
    ensures Distinct(keys) ==> Distinct(Remove(keys, k))
  {
    if keys != [] {
      RemoveMembers(keys[1..], k);
      assert keys == [keys[0]] + keys[1..];
      if Distinct(keys) && keys[0] != k {
        assert keys[0] !in Remove(keys[1..], k);
      }
    }
  }

  lemma {:induction false} RemoveAppend(a: seq<Key>, b: seq<Key>, k: Key)
    ensures Remove(a + b, k) == Remove(a, k) + Remove(b, k)
  {
    if a == [] {
      assert a + b == b;
    } else {
      assert (a + b)[1..] == a[1..] + b;
      RemoveAppend(a[1..], b, k);
    }
  }

  lemma {:induction false} RemoveAbsent(keys: seq<Key>, k: Key)
    requires k !in keys
    ensures Remove(keys, k) == keys
  {
    if keys != [] {
      assert keys[0] in keys && forall x | x in keys[1..] :: x in keys;
      RemoveAbsent(keys[1..], k);
    }
  }

  lemma {:induction false} RemoveOnce(keys: seq<Key>, k: Key)
    requires Distinct(keys) && k in keys
    ensures |Remove(keys, k)| == |keys| - 1
  {
    if keys[0] == k {
      RemoveAbsent(keys[1..], k);
    } else {
      RemoveOnce(keys[1..], k);
    }
  }

  lemma GetValid<V>(maxEntries: int, s: State<V>, k: Key, now: int)
    requires Valid(maxEntries, s)
    ensures Valid(maxEntries, Get(s, k, now).0)
    ensures Get(s, k, now).1.Some? ==> Get(s, k, now).0.store.keys == Remove(s.store.keys, k) + [k]
                                       && Get(s, k, now).0.store.items == s.store.items
  {
    RemoveMembers(s.store.keys, k);
  }

  lemma SetValid<V>(maxEntries: int, s: State<V>, k: Key, value: V, ttl: int, now: int)
    requires Valid(maxEntries, s)
    ensures Valid(maxEntries, Set(maxEntries, s, k, value, ttl, now))
  {
    if |s.store.keys| >= maxEntries && k !in s.store.items && s.store.keys != [] {
      DeleteWellFormed(s.store, s.store.keys[0]);
      SetWellFormed(MapDelete(s.store, s.store.keys[0]), k, Entry(value, now + ttl));
    } else {
      SetWellFormed(s.store, k, Entry(value, now + ttl));
    }
  }

  lemma DeleteWellFormed<V>(m: Store<V>, k: Key)
    requires WellFormed(m)
    ensures WellFormed(MapDelete(m, k))
    ensures |MapDelete(m, k).keys| == if k in m.items then |m.keys| - 1 else |m.keys|
  {
    RemoveMembers(m.keys, k);
    if k in m.keys {
      RemoveOnce(m.keys, k);
    } else {
      RemoveAbsent(m.keys, k);
    }
  }

  lemma SetWellFormed<V>(m: Store<V>, k: Key, e: Entry<V>)
    requires WellFormed(m)
    ensures WellFormed(MapSet(m, k, e))
    ensures |MapSet(m, k, e).keys| == if k in m.items then |m.keys| else |m.keys| + 1
  {
  }

  // ---- what a hit returns ----

  datatype Op<V> =
    | GetOp(key: Key, now: int)
    | SetOp(key: Key, value: V, ttl: int, now: int)
    | DeleteOp(key: Key)
    | ClearOp

  function Do<V>(maxEntries: int, s: State<V>, op: Op<V>): State<V> {
    match op
    case GetOp(k, now) => Get(s, k, now).0
    case SetOp(k, v, ttl, now) => Set(maxEntries, s, k, v, ttl, now)
    case DeleteOp(k) => Delete(s, k)
    case ClearOp => Cleared()
  }

  function DoAll<V>(maxEntries: int, ops: seq<Op<V>>): State<V> {
    if ops == [] then Cleared() else Do(maxEntries, DoAll(maxEntries, ops[..|ops| - 1]), ops[|ops| - 1])
  }

  /** The entry of the last `set` of `k` that no later `delete` or `clear` undid. */
  function LatestSet<V>(ops: seq<Op<V>>, k: Key): Option<Entry<V>> {
    if ops == [] then None
    else
      match ops[|ops| - 1]
      case SetOp(k', v, ttl, now) => if k' == k then Some(Entry(v, now + ttl)) else LatestSet(ops[..|ops| - 1], k)
      case DeleteOp(k') => if k' == k then None else LatestSet(ops[..|ops| - 1], k)
      case ClearOp => None
      case GetOp(_, _) => LatestSet(ops[..|ops| - 1], k)
  }

  /** After any operations the store is within capacity and holds only latest entries. */
  lemma {:induction false} StoreHoldsLatest<V>(maxEntries: int, ops: seq<Op<V>>)
    ensures Valid(maxEntries, DoAll(maxEntries, ops))
    ensures forall k | k in DoAll(maxEntries, ops).store.items ::
              LatestSet(ops, k) == Some(DoAll(maxEntries, ops).store.items[k])
    decreases |ops|
  {
    if ops != [] {
      var before := ops[..|ops| - 1];
      StoreHoldsLatest(maxEntries, before);
      var s := DoAll(maxEntries, before);
      match ops[|ops| - 1]
      case GetOp(k, now) => GetValid(maxEntries, s, k, now);
      case SetOp(k, v, ttl, now) => SetValid(maxEntries, s, k, v, ttl, now);
      case DeleteOp(k) => RemoveMembers(s.store.keys, k);
      case ClearOp =>
    }
  }

  /** A `get` that hits returns the latest value set, which has not expired and was not deleted since. */
  lemma HitReturnsLatest<V>(maxEntries: int, ops: seq<Op<V>>, k: Key, now: int)
    requires Get(DoAll(maxEntries, ops), k, now).1.Some?
    ensures var latest := LatestSet(ops, k);
            latest.Some? && Get(DoAll(maxEntries, ops), k, now).1 == Some(latest.value.value)
            && latest.value.expiresAt >= now
  {
    StoreHoldsLatest(maxEntries, ops);
  }

  /**
    A `get` hits exactly when the key is listed with a latest value that has not expired, returns that
    value, counts itself, and touches nothing but this key: a hit makes it newest, an expired entry goes.
   */
  lemma GetMeaning<V>(maxEntries: int, ops: seq<Op<V>>, k: Key, now: int)
    ensures var s := DoAll(maxEntries, ops); var (s', got) := Get(s, k, now); var latest := LatestSet(ops, k);
            && (got.Some? <==> k in s.store.keys && latest.Some? && latest.value.expiresAt >= now)
            && (got.Some? ==> got.value == latest.value.value)
            && s'.hits == s.hits + (if got.Some? then 1 else 0)
            && s'.misses == s.misses + (if got.Some? then 0 else 1)
            && (got.Some? ==> s'.store.items == s.store.items && s'.store.keys == Remove(s.store.keys, k) + [k])
            && (got.None? ==> s'.store.items == s.store.items - {k} && s'.store.keys == Remove(s.store.keys, k))
  {
    StoreHoldsLatest(maxEntries, ops);
    GetValid(maxEntries, DoAll(maxEntries, ops), k, now);
    if k !in DoAll(maxEntries, ops).store.keys {
      RemoveAbsent(DoAll(maxEntries, ops).store.keys, k);
    }
  }

  /** The gets since the last clear. */
  function GetsSinceClear<V>(ops: seq<Op<V>>): nat {
    if ops == [] || ops[|ops| - 1].ClearOp? then 0
    else GetsSinceClear(ops[..|ops| - 1]) + if ops[|ops| - 1].GetOp? then 1 else 0
  }

  lemma {:induction false} LookupsCounted<V>(maxEntries: int, ops: seq<Op<V>>)
    ensures DoAll(maxEntries, ops).hits + DoAll(maxEntries, ops).misses == GetsSinceClear(ops)
    decreases |ops|
  {
    if ops != [] {
      LookupsCounted(maxEntries, ops[..|ops| - 1]);
      GetMeaningAt(maxEntries, ops);
    }
  }

  lemma GetMeaningAt<V>(maxEntries: int, ops: seq<Op<V>>)
    requires ops != []
    ensures var op := ops[|ops| - 1]; var s := DoAll(maxEntries, ops[..|ops| - 1]); var s' := DoAll(maxEntries, ops);
            && (op.GetOp? ==> s'.hits + s'.misses == s.hits + s.misses + 1)
            && (op.SetOp? || op.DeleteOp? ==> s'.hits == s.hits && s'.misses == s.misses)
  {
    if ops[|ops| - 1].GetOp? {
      GetMeaning(maxEntries, ops[..|ops| - 1], ops[|ops| - 1].key, ops[|ops| - 1].now);
    }
  }

  /** The store stays within `maxEntries` over every run exactly when `maxEntries` is at least one. */
  lemma SizeBound<V>(maxEntries: int, v: V)
    ensures maxEntries >= 1 <==> forall ops: seq<Op<V>> :: |DoAll(maxEntries, ops).store.keys| <= maxEntries
  {
    if maxEntries >= 1 {
      forall ops: seq<Op<V>> ensures |DoAll(maxEntries, ops).store.keys| <= maxEntries {
        StoreHoldsLatest(maxEntries, ops);
      }
    } else {
      var ops: seq<Op<V>> := [SetOp("k", v, 0, 0)];
      assert ops[..0] == [];
      assert DoAll(maxEntries, ops) == Set(maxEntries, Cleared(), "k", v, 0, 0);
      assert |DoAll(maxEntries, ops).store.keys| == 1;
    }
  }

  // ---- least recently used ----

  /** A `remember` call that finishes before the next one starts; `value` is what its loader would give. */
  datatype Request<V> = Request(key: Key, ttl: int, now: int, loadedAt: int, value: V)

  function Remember<V>(maxEntries: int, s: State<V>, r: Request<V>): State<V> {
    var (s', cached) := Get(s, r.key, r.now);
    if cached.Some? then s' else Set(maxEntries, s', r.key, r.value, r.ttl, r.loadedAt)
  }

  function RememberAll<V>(maxEntries: int, requests: seq<Request<V>>): State<V> {
    if requests == [] then Cleared()
    else Remember(maxEntries, RememberAll(maxEntries, requests[..|requests| - 1]), requests[|requests| - 1])
  }

  /** The distinct keys requested, least recently requested first. */
  function Recency<V>(requests: seq<Request<V>>): seq<Key> {
    if requests == [] then []
    else
      var k := requests[|requests| - 1].key;
      Remove(Recency(requests[..|requests| - 1]), k) + [k]
  }

  function Last(keys: seq<Key>, n: nat): seq<Key> {
    if |keys| <= n then keys else keys[|keys| - n..]
  }

  ghost predicate NothingExpires<V>(requests: seq<Request<V>>) {
    forall i, j :: 0 <= i < j < |requests| ==> requests[i].loadedAt + requests[i].ttl >= requests[j].now
  }

  lemma {:induction false} RecencyDistinct<V>(requests: seq<Request<V>>)
    ensures Distinct(Recency(requests))
    decreases |requests|
  {
    if requests != [] {
      RecencyDistinct(requests[..|requests| - 1]);
      RemoveMembers(Recency(requests[..|requests| - 1]), requests[|requests| - 1].key);
    }
  }

  /** `tail` is what `Last` keeps of `front + tail`. */
  predicate LastIs(front: seq<Key>, tail: seq<Key>, n: nat) {
    |tail| == n || (front == [] && |tail| <= n)
  }

  lemma LastOfAppend(front: seq<Key>, tail: seq<Key>, n: nat)
    requires LastIs(front, tail, n)
    ensures Last(front + tail, n) == tail
  {
  }

  lemma LastSplits(keys: seq<Key>, n: nat) returns (front: seq<Key>)
    ensures keys == front + Last(keys, n) && LastIs(front, Last(keys, n), n)
  {
    front := keys[..|keys| - |Last(keys, n)|];
  }

  lemma DistinctParts(front: seq<Key>, tail: seq<Key>)
    requires Distinct(front + tail)
    ensures Distinct(tail) && forall k | k in tail :: k !in front
  {
    var keys := front + tail;
    assert forall i :: 0 <= i < |tail| ==> tail[i] == keys[|front| + i];
    assert forall i :: 0 <= i < |front| ==> front[i] == keys[i];
  }

  lemma HitParts(front: seq<Key>, tail: seq<Key>, k: Key, n: nat)
    requires Distinct(front + tail) && k in tail && LastIs(front, tail, n)
    ensures Last(Remove(front + tail, k) + [k], n) == Remove(tail, k) + [k]
  {
    DistinctParts(front, tail);
    RemoveAppend(front, tail, k);
    RemoveAbsent(front, k);
    RemoveOnce(tail, k);
    var left := Remove(tail, k);
    assert front + left + [k] == front + (left + [k]);
    LastOfAppend(front, left + [k], n);
  }

  lemma MissParts(front: seq<Key>, tail: seq<Key>, k: Key, n: nat)
    requires k !in tail && LastIs(front, tail, n) && n >= 1
    ensures Last(Remove(front + tail, k) + [k], n) == (if |tail| >= n then tail[1..] else tail) + [k]
  {
    RemoveAppend(front, tail, k);
    RemoveAbsent(tail, k);
    var kept := Remove(front, k);
    if |tail| >= n {
      var oldest, rest := tail[..1], tail[1..];
      assert tail == oldest + rest;
      assert kept + tail + [k] == (kept + oldest) + (rest + [k]);
      LastOfAppend(kept + oldest, rest + [k], n);
    } else {
      assert kept + tail + [k] == [] + (tail + [k]);
      LastOfAppend([], tail + [k], n);
    }
  }

  /** Bumping a key that is among the last `n`. */
  lemma LastOnHit(keys: seq<Key>, k: Key, n: nat)
    requires Distinct(keys) && k in Last(keys, n)
    ensures Remove(Last(keys, n), k) + [k] == Last(Remove(keys, k) + [k], n)
  {
    var front := LastSplits(keys, n);
    HitParts(front, Last(keys, n), k, n);
  }

  /** Adding a key that is not, with eviction of the oldest when full. */
  lemma LastOnMiss(keys: seq<Key>, k: Key, n: nat)
    requires k !in Last(keys, n) && n >= 1
    ensures var tail := Last(keys, n);
            (if |tail| >= n then tail[1..] else tail) + [k] == Last(Remove(keys, k) + [k], n)
  {
    var front := LastSplits(keys, n);
    MissParts(front, Last(keys, n), k, n);
  }

  lemma SetEvictsOldest<V>(maxEntries: int, s: State<V>, k: Key, value: V, ttl: int, now: int)
    requires Valid(maxEntries, s) && k !in s.store.items
    ensures Set(maxEntries, s, k, value, ttl, now).store.keys
         == (if |s.store.keys| >= Capacity(maxEntries) then s.store.keys[1..] else s.store.keys) + [k]
  {
    var keys := s.store.keys;
    if keys != [] {
      RemoveAbsent(keys[1..], keys[0]);
      RemoveMembers(keys, keys[0]);
    }
  }

  lemma RememberEntries<V>(maxEntries: int, s: State<V>, r: Request<V>)
    requires Valid(maxEntries, s)
    ensures var s' := Remember(maxEntries, s, r);
            && Valid(maxEntries, s')
            && forall k | k in s'.store.items ::
                 || s'.store.items[k].expiresAt == r.loadedAt + r.ttl
                 || (k in s.store.items && s'.store.items[k].expiresAt == s.store.items[k].expiresAt)
  {
    GetValid(maxEntries, s, r.key, r.now);
    SetValid(maxEntries, Get(s, r.key, r.now).0, r.key, r.value, r.ttl, r.loadedAt);
  }

  lemma {:induction false} EntriesFromRequests<V>(maxEntries: int, requests: seq<Request<V>>)
    ensures Valid(maxEntries, RememberAll(maxEntries, requests))
    ensures forall k | k in RememberAll(maxEntries, requests).store.items ::
              exists i :: 0 <= i < |requests|
                && RememberAll(maxEntries, requests).store.items[k].expiresAt == requests[i].loadedAt + requests[i].ttl
    decreases |requests|
  {
    if requests != [] {
      var n := |requests| - 1;
      var before, r := requests[..n], requests[n];
      EntriesFromRequests(maxEntries, before);
      var s := RememberAll(maxEntries, before);
      RememberEntries(maxEntries, s, r);
      var s' := RememberAll(maxEntries, requests);
      forall k | k in s'.store.items
        ensures exists i :: 0 <= i < |requests| && s'.store.items[k].expiresAt == requests[i].loadedAt + requests[i].ttl
      {
        if k in s.store.items && s'.store.items[k].expiresAt == s.store.items[k].expiresAt {
          var i :| 0 <= i < |before| && s.store.items[k].expiresAt == before[i].loadedAt + before[i].ttl;
          assert before[i] == requests[i];
        } else {
          assert s'.store.items[k].expiresAt == requests[n].loadedAt + requests[n].ttl;
        }
      }
    }
  }

  lemma RememberKeys<V>(maxEntries: int, s: State<V>, r: Request<V>, recency: seq<Key>)
    requires Valid(maxEntries, s) && Distinct(recency)
    requires s.store.keys == Last(recency, Capacity(maxEntries))
    requires r.key in s.store.items ==> s.store.items[r.key].expiresAt >= r.now
    ensures Remember(maxEntries, s, r).store.keys == Last(Remove(recency, r.key) + [r.key], Capacity(maxEntries))
  {
    if r.key in s.store.items {
      GetValid(maxEntries, s, r.key, r.now);
      LastOnHit(recency, r.key, Capacity(maxEntries));
    } else {
      LastOnMiss(recency, r.key, Capacity(maxEntries));
      SetEvictsOldest(maxEntries, Get(s, r.key, r.now).0, r.key, r.value, r.ttl, r.loadedAt);
    }
  }

  lemma StillFresh<V>(maxEntries: int, before: seq<Request<V>>, r: Request<V>)
    requires NothingExpires(before + [r])
    ensures NothingExpires(before)
    ensures var s := RememberAll(maxEntries, before);
            r.key in s.store.items ==> s.store.items[r.key].expiresAt >= r.now
  {
    var all, n := before + [r], |before|;
    assert all[n] == r;
    forall i | 0 <= i < n
      ensures before[i].loadedAt + before[i].ttl >= r.now
      ensures forall j :: i < j < n ==> before[i].loadedAt + before[i].ttl >= before[j].now
    {
      assert all[i] == before[i] && all[i].loadedAt + all[i].ttl >= all[n].now;
      assert forall j :: i < j < n ==> all[j] == before[j];
    }
    EntriesFromRequests(maxEntries, before);
  }

  /** The store lists exactly the most recently requested distinct keys, in that order. */
  lemma {:induction false} LeastRecentlyUsed<V>(maxEntries: int, requests: seq<Request<V>>)
    requires NothingExpires(requests)
    ensures RememberAll(maxEntries, requests).store.keys == Last(Recency(requests), Capacity(maxEntries))
    decreases |requests|
  {
    if requests != [] {
      var n := |requests| - 1;
      var before, r := requests[..n], requests[n];
      assert requests == before + [r];
      StillFresh(maxEntries, before, r);
      LeastRecentlyUsed(maxEntries, before);
      EntriesFromRequests(maxEntries, before);
      RecencyDistinct(before);
      RememberKeys(maxEntries, RememberAll(maxEntries, before), r, Recency(before));
    }
  }

  /** The value `remember` returns, and whether it ran the loader. */
  function Served<V>(s: State<V>, r: Request<V>): (V, bool) {
    var cached := Get(s, r.key, r.now).1;
    if cached.Some? then (cached.value, false) else (r.value, true)
  }

  /** The value of the last request for `k` that ran its loader. */
  function LastLoaded<V>(maxEntries: int, requests: seq<Request<V>>, k: Key): Option<V> {
    if requests == [] then None
    else
      var before, r := requests[..|requests| - 1], requests[|requests| - 1];
      if r.key == k && Served(RememberAll(maxEntries, before), r).1 then Some(r.value)
      else LastLoaded(maxEntries, before, k)
  }

  lemma {:induction false} StoreHoldsLoaded<V>(maxEntries: int, requests: seq<Request<V>>)
    ensures forall k | k in RememberAll(maxEntries, requests).store.items ::
              LastLoaded(maxEntries, requests, k) == Some(RememberAll(maxEntries, requests).store.items[k].value)
    decreases |requests|
  {
    if requests != [] {
      StoreHoldsLoaded(maxEntries, requests[..|requests| - 1]);
    }
  }

  /**
    While nothing expires, a request is served without its loader exactly when its key is among the
    `Capacity` most recently requested ones, and then with the value last loaded for it.
   */
  lemma RecentServedFromStore<V>(maxEntries: int, before: seq<Request<V>>, r: Request<V>)
    requires NothingExpires(before + [r])
    ensures var (value, loaded) := Served(RememberAll(maxEntries, before), r);
            && (!loaded <==> r.key in Last(Recency(before), Capacity(maxEntries)))
            && (!loaded ==> LastLoaded(maxEntries, before, r.key) == Some(value))
            && (loaded ==> value == r.value)
  {
    StillFresh(maxEntries, before, r);
    LeastRecentlyUsed(maxEntries, before);
    EntriesFromRequests(maxEntries, before);
    StoreHoldsLoaded(maxEntries, before);
  }

  /** Serving the same requests, a larger cache holds every key a smaller one holds. */
  lemma LargerHoldsMore<V>(small: int, large: int, requests: seq<Request<V>>, k: Key)
    requires NothingExpires(requests) && small <= large
    requires k in RememberAll(small, requests).store.keys
    ensures k in RememberAll(large, requests).store.keys
  {
    LeastRecentlyUsed(small, requests);
    LeastRecentlyUsed(large, requests);
  }

  // ---- where the store departs from plain LRU ----

  /** A plain LRU cache as a list of keys, in which a hit and every set are uses. */
  function LruStep<V>(maxEntries: int, keys: seq<Key>, op: Op<V>): seq<Key> {
    match op
    case GetOp(k, _) => if k in keys then Remove(keys, k) + [k] else keys
    case SetOp(k, _, _, _) =>
      if k in keys then Remove(keys, k) + [k]
      else (if |keys| >= Capacity(maxEntries) then keys[1..] else keys) + [k]
    case DeleteOp(k) => Remove(keys, k)
    case ClearOp => []
  }

  function LruKeys<V>(maxEntries: int, ops: seq<Op<V>>): seq<Key> {
    if ops == [] then [] else LruStep(maxEntries, LruKeys(maxEntries, ops[..|ops| - 1]), ops[|ops| - 1])
  }

  /** After every prefix of the run the store lists what the plain LRU cache lists. */
  predicate IsLru<V(==)>(maxEntries: int, ops: seq<Op<V>>) {
    DoAll(maxEntries, ops).store.keys == LruKeys(maxEntries, ops)
    && (ops == [] || IsLru(maxEntries, ops[..|ops| - 1]))
  }

  predicate OpFresh<V>(s: State<V>, op: Op<V>) {
    op.GetOp? && op.key in s.store.items ==> s.store.items[op.key].expiresAt >= op.now
  }

  predicate OpNewest<V>(keys: seq<Key>, op: Op<V>) {
    op.SetOp? && op.key in keys ==> keys[|keys| - 1] == op.key
  }

  /** Every set of a present key finds that key newest. */
  predicate SetsNewest<V>(maxEntries: int, ops: seq<Op<V>>) {
    ops == []
    || (var s := DoAll(maxEntries, ops[..|ops| - 1]); var op := ops[|ops| - 1];
        && SetsNewest(maxEntries, ops[..|ops| - 1])
        && OpNewest(s.store.keys, op))
  }

  /** No get of the run meets an expired entry. */
  predicate GetsFresh<V>(maxEntries: int, ops: seq<Op<V>>) {
    ops == []
    || (var s := DoAll(maxEntries, ops[..|ops| - 1]); var op := ops[|ops| - 1];
        && GetsFresh(maxEntries, ops[..|ops| - 1])
        && OpFresh(s, op))
  }

  /** Moving a key to the end changes nothing exactly when it is there already. */
  lemma BumpIsIdentity(keys: seq<Key>, k: Key)
    requires Distinct(keys) && k in keys
    ensures keys == Remove(keys, k) + [k] <==> keys[|keys| - 1] == k
  {
    var front, last := keys[..|keys| - 1], keys[|keys| - 1];
    assert keys == front + [last];
    if last == k {
      RemoveAppend(front, [last], k);
      RemoveAbsent(front, k);
      assert Remove([k], k) == [];
    }
  }

  lemma SnocSteps<V>(maxEntries: int, before: seq<Op<V>>, op: Op<V>)
    ensures DoAll(maxEntries, before + [op]) == Do(maxEntries, DoAll(maxEntries, before), op)
    ensures LruKeys(maxEntries, before + [op]) == LruStep(maxEntries, LruKeys(maxEntries, before), op)
  {
    assert (before + [op])[..|before|] == before;
  }

  lemma StepLru<V>(maxEntries: int, s: State<V>, op: Op<V>)
    requires Valid(maxEntries, s) && OpFresh(s, op)
    ensures Do(maxEntries, s, op).store.keys == LruStep(maxEntries, s.store.keys, op) <==> OpNewest(s.store.keys, op)
  {
    match op
    case GetOp(k, now) =>
      GetValid(maxEntries, s, k, now);
    case SetOp(k, v, ttl, now) =>
      if k in s.store.items {
        BumpIsIdentity(s.store.keys, k);
      } else {
        SetEvictsOldest(maxEntries, s, k, v, ttl, now);
      }
    case DeleteOp(k) =>
    case ClearOp =>
  }

  /**
    Over any run in which no get meets an expired entry, the store evicts like a plain LRU cache
    exactly when every set of a present key finds it newest: `set` does not refresh recency.
   */
  lemma {:induction false} LruIffSetsNewest<V>(maxEntries: int, ops: seq<Op<V>>)
    requires GetsFresh(maxEntries, ops)
    ensures IsLru(maxEntries, ops) <==> SetsNewest(maxEntries, ops)
    decreases |ops|
  {
    if ops != [] {
      var before, op := ops[..|ops| - 1], ops[|ops| - 1];
      assert ops == before + [op];
      LruIffSetsNewest(maxEntries, before);
      StoreHoldsLatest(maxEntries, before);
      if IsLru(maxEntries, before) {
        StepLru(maxEntries, DoAll(maxEntries, before), op);
      }
    }
  }

  lemma RemoveFirst(k: Key, rest: seq<Key>)
    requires k !in rest
    ensures Remove([k] + rest, k) == rest
  {
    RemoveAbsent(rest, k);
    assert ([k] + rest)[1..] == rest;
  }

  /** How a set changes the key lists of the store and of the plain LRU cache. */
  lemma SetKeys<V>(maxEntries: int, before: seq<Op<V>>, op: Op<V>, stored: seq<Key>, lru: seq<Key>)
    requires op.SetOp? && DoAll(maxEntries, before).store.keys == stored && LruKeys(maxEntries, before) == lru
    ensures DoAll(maxEntries, before + [op]).store.keys
         == if op.key in stored then stored
            else (if |stored| >= Capacity(maxEntries) then stored[1..] else stored) + [op.key]
    ensures LruKeys(maxEntries, before + [op])
         == if op.key in lru then Remove(lru, op.key) + [op.key]
            else (if |lru| >= Capacity(maxEntries) then lru[1..] else lru) + [op.key]
  {
    SnocSteps(maxEntries, before, op);
    StoreHoldsLatest(maxEntries, before);
    if op.key !in stored {
      SetEvictsOldest(maxEntries, DoAll(maxEntries, before), op.key, op.value, op.ttl, op.now);
    }
  }

  /** The key lists after a run of sets; a cut-down view of the two stores. */
  predicate Lists<V(==)>(maxEntries: int, ops: seq<Op<V>>, stored: seq<Key>, lru: seq<Key>) {
    DoAll(maxEntries, ops).store.keys == stored && LruKeys(maxEntries, ops) == lru
  }

  lemma SetNewKey<V>(maxEntries: int, before: seq<Op<V>>, op: Op<V>, stored: seq<Key>, lru: seq<Key>)
    requires Lists(maxEntries, before, stored, lru)
    requires op.SetOp? && op.key !in stored && op.key !in lru && |stored| == |lru|
    ensures if |stored| < Capacity(maxEntries)
            then Lists(maxEntries, before + [op], stored + [op.key], lru + [op.key])
            else Lists(maxEntries, before + [op], stored[1..] + [op.key], lru[1..] + [op.key])
  {
    SetKeys(maxEntries, before, op, stored, lru);
  }

  lemma SetOldestKey<V>(maxEntries: int, before: seq<Op<V>>, op: Op<V>, k: Key, rest: seq<Key>)
    requires Lists(maxEntries, before, [k] + rest, [k] + rest)
    requires op.SetOp? && op.key == k && k !in rest
    ensures Lists(maxEntries, before + [op], [k] + rest, rest + [k])
  {
    SetKeys(maxEntries, before, op, [k] + rest, [k] + rest);
    RemoveFirst(k, rest);
  }

  /**
    In any full cache: writing the oldest key again and then a new one evicts the key just
    written, where a plain LRU cache would evict the next oldest.
   */
  lemma SetDoesNotRefresh<V>(maxEntries: int, before: seq<Op<V>>, again: Op<V>, other: Op<V>, k: Key, rest: seq<Key>)
    requires Lists(maxEntries, before, [k] + rest, [k] + rest) && |rest| + 1 == maxEntries && k !in rest
    requires again.SetOp? && again.key == k && other.SetOp? && other.key != k && other.key !in rest
    ensures Lists(maxEntries, before + [again] + [other], rest + [other.key], (rest + [k])[1..] + [other.key])
  {
    SetOldestKey(maxEntries, before, again, k, rest);
    SetNewKey(maxEntries, before + [again], other, [k] + rest, rest + [k]);
    assert ([k] + rest)[1..] == rest;
  }

  /** With two entries: set `a`, set `b`, set `a` and set `c` evicts `a`, which was written after `b`. */
  lemma RewrittenKeyEvicted<V>(x: Op<V>, y: Op<V>, z: Op<V>)
    requires x.SetOp? && y.SetOp? && z.SetOp? && x.key != y.key && y.key != z.key && x.key != z.key
    ensures Lists(2, [x] + [y] + [x] + [z], [y.key, z.key], [x.key, z.key])
  {
    var none: seq<Op<V>> := [];
    assert Lists(2, none, [], []);
    SetNewKey(2, none, x, [], []);
    assert none + [x] == [x] && [] + [x.key] == [x.key];
    SetNewKey(2, [x], y, [x.key], [x.key]);
    SetDoesNotRefresh(2, [x] + [y], x, z, x.key, [y.key]);
    assert ([y.key] + [x.key])[1..] == [x.key];
  }
}
