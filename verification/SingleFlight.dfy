/**
  `remember` of src/lib/cache.ts under concurrency. Microtasks run one at a time:
  a `remember` call up to its first await, a loader's promise settling, the `then`
  callback, the `finally` callback, and a caller resuming are separate steps, in any
  interleaving. Loaders do not call back into the cache before their first await.
 */
module SingleFlight {
  import opened Wrappers
  import opened CacheSpec

  datatype Phase<V> =
    | Loading
    | Loaded(outcome: Result<V, string>)   // the loader's promise settled
    | Stored(outcome: Result<V, string>)   // `then` ran: a value was set
    | Settled(outcome: Result<V, string>)  // `finally` ran: the entry is gone

  datatype Flight<V> = Flight(key: Key, ttl: int, phase: Phase<V>)

  datatype Caller<V> = Caller(key: Key, joined: Option<nat>, result: Option<Result<V, string>>)

  datatype System<V> = System(
    cache: State<V>,
    inflight: map<Key, nat>,
    flights: seq<Flight<V>>,
    callers: seq<Caller<V>>)

  datatype Action<V> =
    | Call(key: Key, ttl: int, now: int)
    | LoaderSettles(flight: nat, outcome: Result<V, string>)
    | Then(flight: nat, now: int)
    | Finally(flight: nat)
    | Resume(caller: nat)
    | Direct(op: Op<V>)   // get, set, delete or clear by other code

  function Start<V>(): System<V> {
    System(Cleared(), map[], [], [])
  }

  predicate Can<V(==)>(s: System<V>, a: Action<V>) {
    match a
    case Call(_, _, _) => true
    case LoaderSettles(f, _) => f < |s.flights| && s.flights[f].phase.Loading?
    case Then(f, _) => f < |s.flights| && s.flights[f].phase.Loaded?
    case Finally(f) => f < |s.flights| && s.flights[f].phase.Stored?
    case Resume(c) =>
      c < |s.callers| && s.callers[c].result.None? && s.callers[c].joined.Some?
      && s.callers[c].joined.value < |s.flights| && s.flights[s.callers[c].joined.value].phase.Settled?
    case Direct(_) => true
  }

  function SetPhase<V>(s: System<V>, f: nat, phase: Phase<V>): System<V>
    requires f < |s.flights|
  {
    s.(flights := s.flights[f := s.flights[f].(phase := phase)])
  }

  function Step<V>(maxEntries: int, s: System<V>, a: Action<V>): System<V>
    requires Can(s, a)
  {
    match a
    case Call(k, ttl, now) =>
      var (cache, cached) := Get(s.cache, k, now);
      if cached.Some? then
        s.(cache := cache, callers := s.callers + [Caller(k, None, Some(Success(cached.value)))])
      else if k in s.inflight then
        s.(cache := cache, callers := s.callers + [Caller(k, Some(s.inflight[k]), None)])
      else
        s.(cache := cache,
           inflight := s.inflight[k := |s.flights|],
           flights := s.flights + [Flight(k, ttl, Loading)],
           callers := s.callers + [Caller(k, Some(|s.flights|), None)])
    case LoaderSettles(f, outcome) => SetPhase(s, f, Loaded(outcome))
    case Then(f, now) =>
      var flight := s.flights[f];
      var outcome := flight.phase.outcome;
      SetPhase(s, f, Stored(outcome)).(
        cache := if outcome.Success? then Set(maxEntries, s.cache, flight.key, outcome.value, flight.ttl, now)
                 else s.cache)
    case Finally(f) =>
      SetPhase(s, f, Settled(s.flights[f].phase.outcome)).(inflight := s.inflight - {s.flights[f].key})
    case Resume(c) =>
      var caller := s.callers[c];
      s.(callers := s.callers[c := caller.(result := Some(s.flights[caller.joined.value].phase.outcome))])
    case Direct(op) =>
      var s' := s.(cache := Do(maxEntries, s.cache, op));
      if op.ClearOp? then s'.(inflight := map[]) else s'
  }

  // ---- the invariant ----

  /** The in-flight map lists exactly the flights that have not settled, under their keys. */
  ghost predicate FlightsListed<V>(s: System<V>) {
    && (forall k | k in s.inflight ::
          s.inflight[k] < |s.flights| && s.flights[s.inflight[k]].key == k && !s.flights[s.inflight[k]].phase.Settled?)
    && (forall f: nat | f < |s.flights| && !s.flights[f].phase.Settled? ::
          s.flights[f].key in s.inflight && s.inflight[s.flights[f].key] == f)
  }

  ghost predicate CallerServed<V>(s: System<V>, c: Caller<V>) {
    && (c.joined.None? ==> c.result.Some? && c.result.value.Success?)
    && (c.joined.Some? ==>
          && c.joined.value < |s.flights|
          && s.flights[c.joined.value].key == c.key
          && (c.result.Some? ==> s.flights[c.joined.value].phase == Settled(c.result.value)))
  }

  ghost predicate CallersServed<V>(s: System<V>) {
    forall c | c in s.callers :: CallerServed(s, c)
  }

  /** A caller may clear the cache safely when `stats().inflight` is 0. */
  predicate ClearsWhenIdle<V>(s: System<V>, a: Action<V>) {
    a.Direct? && a.op.ClearOp? ==> |s.inflight| == 0
  }

  lemma StepListed<V>(maxEntries: int, s: System<V>, a: Action<V>)
    requires Can(s, a) && FlightsListed(s) && ClearsWhenIdle(s, a)
    ensures FlightsListed(Step(maxEntries, s, a))
  {
    match a
    case Call(k, ttl, now) => CallListed(maxEntries, s, k, ttl, now);
    case _ =>
  }

  lemma CallListed<V>(maxEntries: int, s: System<V>, k: Key, ttl: int, now: int)
    requires FlightsListed(s)
    ensures FlightsListed(Step(maxEntries, s, Call(k, ttl, now)))
  {
    var s' := Step(maxEntries, s, Call(k, ttl, now));
    assert forall f: nat | f < |s.flights| :: s'.flights[f] == s.flights[f];
  }

  lemma StepServed<V>(maxEntries: int, s: System<V>, a: Action<V>)
    requires Can(s, a) && CallersServed(s)
    requires FlightsListed(s)
    ensures CallersServed(Step(maxEntries, s, a))
  {
    var s' := Step(maxEntries, s, a);
    forall c | c in s'.callers ensures CallerServed(s', c) {
      if c in s.callers {
        assert CallerServed(s, c);
      } else if a.Resume? {
        assert s.callers[a.caller] in s.callers && CallerServed(s, s.callers[a.caller]);
      }
    }
  }

  predicate Runs<V(==)>(maxEntries: int, s: System<V>, actions: seq<Action<V>>)
    decreases |actions|
  {
    actions == [] || (Can(s, actions[0]) && Runs(maxEntries, Step(maxEntries, s, actions[0]), actions[1..]))
  }

  function After<V>(maxEntries: int, s: System<V>, actions: seq<Action<V>>): System<V>
    requires Runs(maxEntries, s, actions)
    decreases |actions|
  {
    if actions == [] then s else After(maxEntries, Step(maxEntries, s, actions[0]), actions[1..])
  }

  /** No `clear` of the run happens while a flight is listed. */
  predicate NoClearInFlight<V>(maxEntries: int, s: System<V>, actions: seq<Action<V>>)
    requires Runs(maxEntries, s, actions)
    decreases |actions|
  {
    actions == []
    || (ClearsWhenIdle(s, actions[0]) && NoClearInFlight(maxEntries, Step(maxEntries, s, actions[0]), actions[1..]))
  }

  lemma {:induction false} RunListed<V>(maxEntries: int, s: System<V>, actions: seq<Action<V>>)
    requires Runs(maxEntries, s, actions) && NoClearInFlight(maxEntries, s, actions)
    requires FlightsListed(s) && CallersServed(s)
    ensures FlightsListed(After(maxEntries, s, actions)) && CallersServed(After(maxEntries, s, actions))
    decreases |actions|
  {
    if actions != [] {
      StepListed(maxEntries, s, actions[0]);
      StepServed(maxEntries, s, actions[0]);
      RunListed(maxEntries, Step(maxEntries, s, actions[0]), actions[1..]);
    }
  }

  /**
    In every interleaving without a `clear` in mid-flight: at most one loader per key is
    outstanding; a caller that joined a flight gets that flight's value or failure; and the
    in-flight entry of a settled flight is gone.
   */
  lemma OneLoaderPerKey<V>(maxEntries: int, actions: seq<Action<V>>)
    requires Runs(maxEntries, Start(), actions) && NoClearInFlight(maxEntries, Start(), actions)
    ensures var s := After(maxEntries, Start(), actions);
            && OneLoading(s)
            && (forall c | c in s.callers && c.joined.Some? && c.result.Some? ::
                  c.joined.value < |s.flights| && s.flights[c.joined.value].key == c.key
                  && s.flights[c.joined.value].phase == Settled(c.result.value))
            && (forall f: nat | f < |s.flights| && s.flights[f].phase.Settled? :: f !in s.inflight.Values)
  {
    RunListed(maxEntries, Start(), actions);
    var s := After(maxEntries, Start(), actions);
    forall c | c in s.callers && c.joined.Some? && c.result.Some?
      ensures c.joined.value < |s.flights| && s.flights[c.joined.value].key == c.key
              && s.flights[c.joined.value].phase == Settled(c.result.value)
    {
      assert CallerServed(s, c);
    }
  }

  // ---- what each step does ----

  /**
    A `remember` call: a cached value is returned at once, an outstanding loader for the key is joined,
    and a loader is started exactly when there is neither.
   */
  lemma CallMeaning<V>(maxEntries: int, s: System<V>, k: Key, ttl: int, now: int)
    ensures var s' := Step(maxEntries, s, Call(k, ttl, now)); var cached := Get(s.cache, k, now).1;
            && s'.cache == Get(s.cache, k, now).0
            && |s'.callers| == |s.callers| + 1
            && var c := s'.callers[|s.callers|];
               && c.key == k
               && (cached.Some? ==> c.result == Some(Success(cached.value)) && s'.flights == s.flights)
               && (cached.None? && k in s.inflight ==> c.joined == Some(s.inflight[k]) && s'.flights == s.flights)
               && (cached.None? && k !in s.inflight ==>
                     && c.joined == Some(|s.flights|) && s'.flights == s.flights + [Flight(k, ttl, Loading)]
                     && k in s'.inflight && s'.inflight[k] == |s.flights|)
  {
  }

  /** A loaded value is found under its key for `ttl` from then on; a failure leaves the cache alone. */
  lemma LoadedIsCached<V>(maxEntries: int, s: System<V>, f: nat, now: int, later: int)
    requires Can(s, Then(f, now)) && now <= later <= now + s.flights[f].ttl
    ensures var s' := Step(maxEntries, s, Then(f, now)); var outcome := s.flights[f].phase.outcome;
            if outcome.Success? then Get(s'.cache, s.flights[f].key, later).1 == Some(outcome.value)
            else s'.cache == s.cache
  {
  }

  function OutcomeOf<V>(phase: Phase<V>): Option<Result<V, string>> {
    if phase.Loading? then None else Some(phase.outcome)
  }

  /** The outcome with which the loader of flight `f` settles during a run. */
  function LoaderOutcome<V>(actions: seq<Action<V>>, f: nat): Option<Result<V, string>> {
    if actions == [] then None
    else if actions[0].LoaderSettles? && actions[0].flight == f then Some(actions[0].outcome)
    else LoaderOutcome(actions[1..], f)
  }

  function FlightOutcome<V>(s: System<V>, f: nat): Option<Result<V, string>> {
    if f < |s.flights| then OutcomeOf(s.flights[f].phase) else None
  }

  lemma StepOutcome<V>(maxEntries: int, s: System<V>, a: Action<V>, f: nat)
    requires Can(s, a)
    ensures FlightOutcome(Step(maxEntries, s, a), f)
         == if FlightOutcome(s, f).None? && a.LoaderSettles? && a.flight == f then Some(a.outcome)
            else FlightOutcome(s, f)
  {
  }

  /** A flight carries the outcome of its own loader, and with `OneLoaderPerKey` so does every caller that joined it. */
  lemma {:induction false} OutcomeIsLoaders<V>(maxEntries: int, s: System<V>, actions: seq<Action<V>>, f: nat)
    requires Runs(maxEntries, s, actions)
    ensures FlightOutcome(After(maxEntries, s, actions), f)
         == if FlightOutcome(s, f).Some? then FlightOutcome(s, f) else LoaderOutcome(actions, f)
    decreases |actions|
  {
    if actions != [] {
      StepOutcome(maxEntries, s, actions[0], f);
      OutcomeIsLoaders(maxEntries, Step(maxEntries, s, actions[0]), actions[1..], f);
    }
  }

  // ---- clearing in mid-flight ----

  /** No two loaders of one key are outstanding. */
  ghost predicate OneLoading<V>(s: System<V>) {
    forall f: nat, g: nat | f < |s.flights| && g < |s.flights|
      && s.flights[f].phase.Loading? && s.flights[g].phase.Loading? && s.flights[f].key == s.flights[g].key :: f == g
  }

  /** Some continuation that itself clears only when idle has two loaders of one key outstanding. */
  ghost predicate CanDouble<V(!new)>(maxEntries: int, s: System<V>) {
    exists actions :: Runs(maxEntries, s, actions) && NoClearInFlight(maxEntries, s, actions)
                      && !OneLoading(After(maxEntries, s, actions))
  }

  lemma {:induction false} RunFlightsListed<V>(maxEntries: int, s: System<V>, actions: seq<Action<V>>)
    requires Runs(maxEntries, s, actions) && NoClearInFlight(maxEntries, s, actions) && FlightsListed(s)
    ensures FlightsListed(After(maxEntries, s, actions))
    decreases |actions|
  {
    if actions != [] {
      StepListed(maxEntries, s, actions[0]);
      RunFlightsListed(maxEntries, Step(maxEntries, s, actions[0]), actions[1..]);
    }
  }

  lemma DoubleNow<V(!new)>(maxEntries: int, s: System<V>)
    requires !OneLoading(s)
    ensures CanDouble(maxEntries, s)
  {
    var none: seq<Action<V>> := [];
    assert Runs(maxEntries, s, none) && NoClearInFlight(maxEntries, s, none) && After(maxEntries, s, none) == s;
  }

  lemma DoubleAfter<V(!new)>(maxEntries: int, s: System<V>, a: Action<V>)
    requires Can(s, a) && ClearsWhenIdle(s, a) && CanDouble(maxEntries, Step(maxEntries, s, a))
    ensures CanDouble(maxEntries, s)
  {
    var s' := Step(maxEntries, s, a);
    var rest :| Runs(maxEntries, s', rest) && NoClearInFlight(maxEntries, s', rest)
                && !OneLoading(After(maxEntries, s', rest));
    var all := [a] + rest;
    assert all[1..] == rest;
    assert Runs(maxEntries, s, all) && NoClearInFlight(maxEntries, s, all);
    assert After(maxEntries, s, all) == After(maxEntries, s', rest);
  }

  /** A flight for `k` is outstanding but not listed: the next `remember(k)` that misses starts a second one. */
  lemma UnlistedDoubles<V(!new)>(maxEntries: int, s: System<V>, f: nat, now: int)
    requires f < |s.flights| && s.flights[f].phase.Loading? && s.flights[f].key !in s.inflight
    requires Get(s.cache, s.flights[f].key, now).1.None?
    ensures CanDouble(maxEntries, s)
  {
    var a: Action<V> := Call(s.flights[f].key, 0, now);
    var s' := Step(maxEntries, s, a);
    var g := |s.flights|;
    assert s'.flights[f].phase.Loading? && s'.flights[g].phase.Loading? && s'.flights[f].key == s'.flights[g].key;
    DoubleNow(maxEntries, s');
    DoubleAfter(maxEntries, s, a);
  }

  /** The stale `finally` of a cleared flight `f` deletes the entry of the flight `g` that replaced it. */
  lemma StaleFinallyDoubles<V(!new)>(maxEntries: int, s: System<V>, f: nat, g: nat, now: int)
    requires f < |s.flights| && g < |s.flights| && f != g && s.flights[f].key == s.flights[g].key
    requires s.flights[f].phase.Stored? && s.flights[g].phase.Loading?
    requires Get(s.cache, s.flights[f].key, now).1.None?
    ensures CanDouble(maxEntries, s)
  {
    var a: Action<V> := Finally(f);
    UnlistedDoubles(maxEntries, Step(maxEntries, s, a), g, now);
    DoubleAfter(maxEntries, s, a);
  }

  /** Before that, the stale `then` stores a value, which only delays the second loader until it expires. */
  lemma StaleThenDoubles<V(!new)>(maxEntries: int, s: System<V>, f: nat, g: nat)
    requires f < |s.flights| && g < |s.flights| && f != g && s.flights[f].key == s.flights[g].key
    requires s.flights[f].phase.Loaded? && s.flights[g].phase.Loading?
    requires s.flights[f].key !in s.cache.store.items
    ensures CanDouble(maxEntries, s)
  {
    var a: Action<V> := Then(f, 0);
    StaleFinallyDoubles(maxEntries, Step(maxEntries, s, a), f, g,
                        if s.flights[f].ttl < 0 then 0 else s.flights[f].ttl + 1);
    DoubleAfter(maxEntries, s, a);
  }

  lemma ClearedDoubles<V(!new)>(maxEntries: int, s: System<V>, f: nat)
    requires f < |s.flights| && !s.flights[f].phase.Settled? && s.inflight == map[] && s.cache == Cleared()
    ensures CanDouble(maxEntries, s)
  {
    var k := s.flights[f].key;
    if s.flights[f].phase.Loading? {
      UnlistedDoubles(maxEntries, s, f, 0);
    } else {
      var a: Action<V> := Call(k, 0, 0);
      var s' := Step(maxEntries, s, a);
      if s.flights[f].phase.Loaded? {
        StaleThenDoubles(maxEntries, s', f, |s.flights|);
      } else {
        StaleFinallyDoubles(maxEntries, s', f, |s.flights|, 0);
      }
      DoubleAfter(maxEntries, s, a);
    }
  }

  /**
    `clear` is safe exactly when `stats().inflight` is 0: otherwise, whatever the listed flight is
    doing, some continuation that never again clears in mid-flight has two loaders of its key.
   */
  lemma ClearSafeIffIdle<V(!new)>(maxEntries: int, s: System<V>)
    requires FlightsListed(s)
    ensures |s.inflight| == 0 <==> !CanDouble(maxEntries, Step(maxEntries, s, Direct(ClearOp)))
  {
    var s' := Step(maxEntries, s, Direct(ClearOp));
    if |s.inflight| == 0 {
      StepListed(maxEntries, s, Direct(ClearOp));
      forall actions | Runs(maxEntries, s', actions) && NoClearInFlight(maxEntries, s', actions)
        ensures OneLoading(After(maxEntries, s', actions))
      {
        RunFlightsListed(maxEntries, s', actions);
      }
    } else {
      assert s.inflight.Keys != {};
      var k :| k in s.inflight;
      ClearedDoubles(maxEntries, s', s.inflight[k]);
    }
  }
}
