/**
  The fixed-window limiters: `memoryCheck` and its garbage collection in
  src/lib/rate-limit.ts, and their Go twin in judge-service/main.go. Times are integer
  milliseconds supplied by a clock that does not run backwards.
 */
module FixedWindows {
  import opened Wrappers

  datatype Window = Window(count: int, resetAt: int)

  datatype Decision = Decision(allowed: bool, remaining: int, resetAt: int, retryAfter: Option<int>)

  /** `Math.max(1, Math.ceil(ms / 1000))`. */
  function RetrySeconds(ms: int): int {
    var s := (ms + 999) / 1000;
    if s < 1 then 1 else s
  }

  function Check(w: Option<Window>, max: int, windowMs: int, now: int): (Window, Decision) {
    if w.None? || now > w.value.resetAt then
      (Window(1, now + windowMs), Decision(true, max - 1, now + windowMs, None))
    else if w.value.count >= max then
      (w.value, Decision(false, 0, w.value.resetAt, Some(RetrySeconds(w.value.resetAt - now))))
    else
      (w.value.(count := w.value.count + 1), Decision(true, max - (w.value.count + 1), w.value.resetAt, None))
  }

  function Lookup(buckets: map<string, Window>, key: string): Option<Window> {
    if key in buckets then Some(buckets[key]) else None
  }

  function Unexpired(windows: map<string, Window>, now: int): map<string, Window> {
    map k | k in windows && windows[k].resetAt >= now :: windows[k]
  }

  class MemoryLimiter {
    var buckets: map<string, Window>

    method MemoryCheck(key: string, max: int, windowMs: int, now: int) returns (d: Decision)
      modifies this
      ensures var (w, decision) := Check(Lookup(old(buckets), key), max, windowMs, now);
              d == decision && buckets == old(buckets)[key := w]
    {
      if key !in buckets || now > buckets[key].resetAt {
        var next := Window(1, now + windowMs);
        buckets := buckets[key := next];
        return Decision(true, max - 1, next.resetAt, None);
      }
      var w := buckets[key];
      if w.count >= max {
        assert buckets == buckets[key := w];
        return Decision(false, 0, w.resetAt, Some(RetrySeconds(w.resetAt - now)));
      }
      w := w.(count := w.count + 1);
      buckets := buckets[key := w];
      d := Decision(true, max - w.count, w.resetAt, None);
    }

    /** The timer armed by `armGc`. */
    method CollectGarbage(now: int)
      modifies this
      ensures buckets == Unexpired(old(buckets), now)
    {
      var left := buckets.Keys;
      while left != {}
        invariant left <= old(buckets).Keys
        invariant buckets == map k | k in old(buckets) && (k in left || old(buckets)[k].resetAt >= now)
                                 :: old(buckets)[k]
      {
        var k :| k in left;
        if now > buckets[k].resetAt {
          buckets := buckets - {k};
        }
        left := left - {k};
      }
    }
  }

  const RATE_LIMIT_REQUESTS := 30
  const RATE_LIMIT_WINDOW := 60000

  /** `rateLimiter` of the judge service. */
  class RateLimiter {
    var records: map<string, Window>

    method Allow(ip: string, now: int) returns (ok: bool)
      modifies this
      ensures var (w, d) := Check(Lookup(old(records), ip), 30, 60 * 1000, now);
              ok == d.allowed && records == old(records)[ip := w]
    {
      if ip !in records || now > records[ip].resetAt {
        records := records[ip := Window(1, now + RATE_LIMIT_WINDOW)];
        return true;
      }
      if records[ip].count >= RATE_LIMIT_REQUESTS {
        assert records == records[ip := records[ip]];
        return false;
      }
      records := records[ip := records[ip].(count := records[ip].count + 1)];
      ok := true;
    }

    /** One tick of the cleanup goroutine, under the mutex. */
    method CleanUp(now: int)
      modifies this
      ensures records == Unexpired(old(records), now)
    {
      var left := records.Keys;
      while left != {}
        invariant left <= old(records).Keys
        invariant records == map k | k in old(records) && (k in left || old(records)[k].resetAt >= now)
                                 :: old(records)[k]
      {
        var k :| k in left;
        if now > records[k].resetAt {
          records := records - {k};
        }
        left := left - {k};
      }
    }
  }

  // ---- traces of one key ----

  datatype Event = Call(now: int) | Collect(now: int)

  ghost predicate Monotone(events: seq<Event>) {
    forall i, j :: 0 <= i < j < |events| ==> events[i].now <= events[j].now
  }

  function Front<T>(s: seq<T>): seq<T>
    requires s != []
  {
    s[..|s| - 1]
  }

  function Final<T>(s: seq<T>): T
    requires s != []
  {
    s[|s| - 1]
  }

  function Bucket(events: seq<Event>, max: int, windowMs: int): Option<Window> {
    if events == [] then None
    else
      var w := Bucket(Front(events), max, windowMs);
      match Final(events)
      case Call(now) => Some(Check(w, max, windowMs, now).0)
      case Collect(now) => if w.Some? && now > w.value.resetAt then None else w
  }

  /** The decisions on the calls of a trace, in order. */
  function Decisions(events: seq<Event>, max: int, windowMs: int): seq<Decision> {
    if events == [] then []
    else
      Decisions(Front(events), max, windowMs)
      + if Final(events).Call?
        then [Check(Bucket(Front(events), max, windowMs), max, windowMs, Final(events).now).1] else []
  }

  function Calls(events: seq<Event>): seq<Event> {
    if events == [] then []
    else Calls(Front(events)) + if Final(events).Call? then [Final(events)] else []
  }

  lemma MonotoneFront(events: seq<Event>)
    requires Monotone(events) && |events| >= 2
    ensures Monotone(Front(events)) && Final(Front(events)).now <= Final(events).now
  {
  }

  /** Collecting expired buckets changes no decision. */
  lemma {:induction false} CollectionInvisible(events: seq<Event>, max: int, windowMs: int)
    requires Monotone(events)
    ensures Decisions(events, max, windowMs) == Decisions(Calls(events), max, windowMs)
    ensures var w, w' := Bucket(events, max, windowMs), Bucket(Calls(events), max, windowMs);
            w == w' || (w.None? && w'.Some? && events != [] && Final(events).now > w'.value.resetAt)
    decreases |events|
  {
    if events != [] {
      if |events| >= 2 {
        MonotoneFront(events);
      }
      CollectionInvisible(Front(events), max, windowMs);
      if Final(events).Call? {
        assert Front(Calls(events)) == Calls(Front(events));
      } else {
        assert Calls(events) == Calls(Front(events));
      }
    }
  }

  /** A limit below one still lets the first call of a window through. */
  function Cap(max: int): nat {
    if max < 1 then 1 else max
  }

  predicate LetThrough(events: seq<Event>, max: int, windowMs: int)
    requires events != []
  {
    Final(events).Call? && Check(Bucket(Front(events), max, windowMs), max, windowMs, Final(events).now).1.allowed
  }

  /** Calls allowed since the current window was opened, the opening one included. */
  function AllowedInWindow(events: seq<Event>, max: int, windowMs: int): nat {
    if events == [] then 0
    else
      var w := Bucket(Front(events), max, windowMs);
      if Final(events).Collect? then AllowedInWindow(Front(events), max, windowMs)
      else if w.None? || Final(events).now > w.value.resetAt then 1
      else AllowedInWindow(Front(events), max, windowMs) + if LetThrough(events, max, windowMs) then 1 else 0
  }

  /** The calls allowed in a window never exceed the limit, and the counter counts them. */
  lemma {:induction false} AtMostMaxPerWindow(events: seq<Event>, max: int, windowMs: int)
    ensures AllowedInWindow(events, max, windowMs) <= Cap(max)
    ensures var w := Bucket(events, max, windowMs);
            w.Some? ==> w.value.count == AllowedInWindow(events, max, windowMs)
    decreases |events|
  {
    if events != [] {
      AtMostMaxPerWindow(Front(events), max, windowMs);
    }
  }

  /** So a limit is kept over every trace exactly when it is at least one. */
  lemma LimitKept(max: int, windowMs: int)
    ensures max >= 1 <==> forall events :: AllowedInWindow(events, max, windowMs) <= max
  {
    if max >= 1 {
      forall events ensures AllowedInWindow(events, max, windowMs) <= max {
        AtMostMaxPerWindow(events, max, windowMs);
      }
    } else {
      assert Front([Call(0)]) == [];
      assert AllowedInWindow([Call(0)], max, windowMs) == 1;
    }
  }

  /** Allowed calls with `lo <= now <= hi`. */
  function AllowedBetween(events: seq<Event>, max: int, windowMs: int, lo: int, hi: int): nat {
    if events == [] then 0
    else
      AllowedBetween(Front(events), max, windowMs, lo, hi)
      + if lo <= Final(events).now <= hi && LetThrough(events, max, windowMs) then 1 else 0
  }

  /** What the state of the bucket says about the calls allowed in `[t, t + windowMs]` so far. */
  ghost predicate IntervalInv(events: seq<Event>, max: int, windowMs: int, t: int) {
    var allowed := AllowedBetween(events, max, windowMs, t, t + windowMs);
    var w := Bucket(events, max, windowMs);
    && allowed <= 2 * Cap(max) - 1
    && (events == [] ==> w.None?)
    && (events != [] && Final(events).now < t ==> allowed == 0)
    && (w.None? ==> allowed <= Cap(max) - 1 || Final(events).now > t + windowMs)
    && (w.Some? ==>
          && 1 <= w.value.count <= Cap(max)
          && w.value.resetAt - windowMs <= Final(events).now
          && (w.value.resetAt - windowMs < t ==> allowed <= w.value.count - 1)
          && (w.value.resetAt - windowMs >= t ==>
                allowed <= Cap(max) - 1 + w.value.count || Final(events).now > t + windowMs))
  }

  lemma {:induction false} IntervalHolds(events: seq<Event>, max: int, windowMs: int, t: int)
    requires Monotone(events) && windowMs >= 0
    ensures IntervalInv(events, max, windowMs, t)
    decreases |events|
  {
    if events != [] {
      if |events| >= 2 {
        MonotoneFront(events);
      }
      IntervalHolds(Front(events), max, windowMs, t);
    }
  }

  /** Any closed interval of the length of a window sees fewer than twice the limit. */
  lemma BelowTwiceMaxPerInterval(events: seq<Event>, max: int, windowMs: int, t: int)
    requires Monotone(events) && windowMs >= 0
    ensures AllowedBetween(events, max, windowMs, t, t + windowMs) <= 2 * Cap(max) - 1
  {
    IntervalHolds(events, max, windowMs, t);
  }

  /** A trace up to time `last`, with its bucket and its allowed calls in `[lo, hi]`. */
  ghost predicate Trace(events: seq<Event>, max: int, windowMs: int, last: int, w: Option<Window>,
                        lo: int, hi: int, allowed: nat)
  {
    && Monotone(events) && (forall e | e in events :: e.now <= last)
    && Bucket(events, max, windowMs) == w
    && AllowedBetween(events, max, windowMs, lo, hi) == allowed
  }

  lemma OneMoreCall(before: seq<Event>, max: int, windowMs: int, last: int, w: Option<Window>, now: int,
                    lo: int, hi: int, allowed: nat)
    returns (events: seq<Event>)
    requires Trace(before, max, windowMs, last, w, lo, hi, allowed) && last <= now
    requires Check(w, max, windowMs, now).1.allowed
    ensures Trace(events, max, windowMs, now, Some(Check(w, max, windowMs, now).0), lo, hi,
                  allowed + if lo <= now <= hi then 1 else 0)
  {
    events := before + [Call(now)];
    assert Front(events) == before && Final(events) == Call(now);
  }

  lemma {:induction false} MoreCalls(before: seq<Event>, n: nat, max: int, windowMs: int, w: Window, now: int,
                                     lo: int, hi: int, allowed: nat)
    returns (events: seq<Event>)
    requires Trace(before, max, windowMs, now, Some(w), lo, hi, allowed)
    requires now <= w.resetAt && w.count + n <= max
    ensures Trace(events, max, windowMs, now, Some(Window(w.count + n, w.resetAt)), lo, hi,
                  allowed + if lo <= now <= hi then n else 0)
    decreases n
  {
    if n == 0 {
      events := before;
    } else {
      events := MoreCalls(before, n - 1, max, windowMs, w, now, lo, hi, allowed);
      events := OneMoreCall(events, max, windowMs, now, Some(Window(w.count + n - 1, w.resetAt)), now, lo, hi,
                            allowed + if lo <= now <= hi then n - 1 else 0);
    }
  }

  /** No smaller bound holds: the end of one window and the start of the next fall into one interval. */
  lemma BoundReached(max: nat, windowMs: nat) returns (events: seq<Event>)
    requires max >= 1 && windowMs >= 1
    ensures Monotone(events)
    ensures AllowedBetween(events, max, windowMs, windowMs, windowMs + windowMs) == 2 * max - 1
  {
    var lo, hi := windowMs, windowMs + windowMs;
    events := OneMoreCall([], max, windowMs, 0, None, 0, lo, hi, 0);
    events := MoreCalls(events, max - 1, max, windowMs, Window(1, windowMs), windowMs, lo, hi, 0);
    events := OneMoreCall(events, max, windowMs, windowMs, Some(Window(max, windowMs)), windowMs + 1, lo, hi, max - 1);
    events := MoreCalls(events, max - 1, max, windowMs, Window(1, windowMs + 1 + windowMs), windowMs + 1, lo, hi, max);
  }

  // ---- what a decision says ----

  /** The least number of whole seconds, but at least one, that cover the wait. */
  lemma RetrySecondsMeaning(ms: int)
    ensures RetrySeconds(ms) >= 1 && RetrySeconds(ms) * 1000 >= ms
    ensures RetrySeconds(ms) > 1 ==> (RetrySeconds(ms) - 1) * 1000 < ms
  {
  }

  /** The calls allowed so far in the window that a call at `now` falls into. */
  function AllowedSoFar(events: seq<Event>, max: int, windowMs: int, now: int): nat {
    var w := Bucket(events, max, windowMs);
    if w.None? || now > w.value.resetAt then 0 else AllowedInWindow(events, max, windowMs)
  }

  lemma {:induction false} CounterPositive(events: seq<Event>, max: int, windowMs: int)
    ensures var w := Bucket(events, max, windowMs); w.Some? ==> w.value.count >= 1
    decreases |events|
  {
    if events != [] {
      CounterPositive(Front(events), max, windowMs);
    }
  }

  /**
    A call is allowed exactly when it opens a window or the calls allowed in its window so far leave
    room, and the decision says how much room is left, when the window ends and when to try again.
   */
  lemma DecisionMeaning(events: seq<Event>, max: int, windowMs: int, now: int)
    ensures var w := Bucket(events, max, windowMs); var (w', d) := Check(w, max, windowMs, now);
            var used := AllowedSoFar(events, max, windowMs, now);
            && (d.allowed <==> used == 0 || used < max)
            && (d.allowed ==> d.remaining == max - (used + 1) && d.retryAfter.None?)
            && (!d.allowed ==> d.remaining == 0 && d.retryAfter == Some(RetrySeconds(d.resetAt - now)))
            && d.resetAt == w'.resetAt
            && w'.resetAt == (if w.Some? && now <= w.value.resetAt then w.value.resetAt else now + windowMs)
  {
    AtMostMaxPerWindow(events, max, windowMs);
    CounterPositive(events, max, windowMs);
  }

  // ---- collection over the whole map ----

  /** A bucket is kept as it is while its window lasts, and goes once the window has passed. */
  lemma KeptWhileLive(windows: map<string, Window>, key: string, now: int)
    ensures Lookup(Unexpired(windows, now), key)
         == if key in windows && now <= windows[key].resetAt then Some(windows[key]) else None
  {
  }

  /** What a collection may have taken from a map without any later call noticing. */
  predicate Collected(w: Option<Window>, full: Option<Window>, now: int) {
    w == full || (w.None? && full.Some? && now > full.value.resetAt)
  }

  /** No call at or after a collection decides differently on the collected map, and it leaves the same bucket. */
  lemma CollectionKeepsDecisions(
      windows: map<string, Window>, key: string, max: int, windowMs: int, now: int, later: int)
    requires now <= later
    ensures Check(Lookup(Unexpired(windows, now), key), max, windowMs, later)
         == Check(Lookup(windows, key), max, windowMs, later)
  {
    KeptWhileLive(windows, key, now);
  }

  /** Calls on any keys, each with its own limit and window, and collections of the whole map. */
  datatype MapEvent = CallKey(key: string, max: int, windowMs: int, now: int) | CollectAll(now: int)

  ghost predicate MonotoneMap(events: seq<MapEvent>) {
    forall i, j :: 0 <= i < j < |events| ==> events[i].now <= events[j].now
  }

  function MapAfter(events: seq<MapEvent>): map<string, Window> {
    if events == [] then map[]
    else
      var m := MapAfter(Front(events));
      match Final(events)
      case CallKey(key, max, windowMs, now) => m[key := Check(Lookup(m, key), max, windowMs, now).0]
      case CollectAll(now) => Unexpired(m, now)
  }

  function MapDecisions(events: seq<MapEvent>): seq<Decision> {
    if events == [] then []
    else
      MapDecisions(Front(events))
      + match Final(events)
        case CallKey(key, max, windowMs, now) =>
          [Check(Lookup(MapAfter(Front(events)), key), max, windowMs, now).1]
        case CollectAll(_) => []
  }

  function CallsOnly(events: seq<MapEvent>): seq<MapEvent> {
    if events == [] then []
    else CallsOnly(Front(events)) + if Final(events).CallKey? then [Final(events)] else []
  }

  lemma MonotoneMapFront(events: seq<MapEvent>)
    requires MonotoneMap(events) && |events| >= 2
    ensures MonotoneMap(Front(events)) && Final(Front(events)).now <= Final(events).now
  {
  }

  lemma CallsOnlyStep(events: seq<MapEvent>)
    requires events != []
    ensures Final(events).CallKey? ==>
              CallsOnly(events) != [] && Front(CallsOnly(events)) == CallsOnly(Front(events))
              && Final(CallsOnly(events)) == Final(events)
    ensures Final(events).CollectAll? ==> CallsOnly(events) == CallsOnly(Front(events))
  {
  }

  /** Over every trace the collected map differs from the uncollected one only by buckets that have expired. */
  lemma {:induction false} CollectedMap(events: seq<MapEvent>, key: string)
    requires MonotoneMap(events)
    ensures events == [] ==> CallsOnly(events) == []
    ensures events != [] ==>
              Collected(Lookup(MapAfter(events), key), Lookup(MapAfter(CallsOnly(events)), key), Final(events).now)
    decreases |events|
  {
    if events != [] {
      if |events| >= 2 {
        MonotoneMapFront(events);
      }
      CollectedMap(Front(events), key);
      CallsOnlyStep(events);
      match Final(events)
      case CallKey(_, _, _, _) =>
      case CollectAll(now) => KeptWhileLive(MapAfter(Front(events)), key, now);
    }
  }

  /** Garbage collection of the whole map changes no decision of any call on any key. */
  lemma {:induction false} CollectAllInvisible(events: seq<MapEvent>)
    requires MonotoneMap(events)
    ensures MapDecisions(events) == MapDecisions(CallsOnly(events))
    decreases |events|
  {
    if events != [] {
      if |events| >= 2 {
        MonotoneMapFront(events);
      }
      CollectAllInvisible(Front(events));
      CallsOnlyStep(events);
      if Final(events).CallKey? {
        CollectedMap(Front(events), Final(events).key);
      }
    }
  }

  /** What a trace of the map is for one key: its own calls, and the collections. */
  function KeyTrace(events: seq<MapEvent>, key: string): seq<Event> {
    if events == [] then []
    else
      KeyTrace(Front(events), key)
      + match Final(events)
        case CallKey(k, _, _, now) => if k == key then [Call(now)] else []
        case CollectAll(now) => [Collect(now)]
  }

  /** The bucket of a key in the map is the one its own trace leads to, so what is proved per key holds for the map. */
  lemma {:induction false} MapIsBuckets(events: seq<MapEvent>, key: string, max: int, windowMs: int)
    requires forall e | e in events && e.CallKey? && e.key == key :: e.max == max && e.windowMs == windowMs
    ensures Lookup(MapAfter(events), key) == Bucket(KeyTrace(events, key), max, windowMs)
    decreases |events|
  {
    if events != [] {
      assert Final(events) in events && forall e | e in Front(events) :: e in events;
      MapIsBuckets(Front(events), key, max, windowMs);
      var trace := KeyTrace(Front(events), key);
      match Final(events)
      case CallKey(k, _, _, now) =>
        assert k == key ==> Front(trace + [Call(now)]) == trace;
        assert trace + [] == trace;
      case CollectAll(now) =>
        assert Front(trace + [Collect(now)]) == trace;
        KeptWhileLive(MapAfter(Front(events)), key, now);
    }
  }
}
