/**
  What happens to the individual jobs of the queue: which handler takes them, what they
  carry, and where a settled call leaves them.
 */
module QueueJobs {
  import opened Wrappers
  import opened QueueSpec
  import opened QueueRuns

  // ---- one pump ----

  /** How a worker runs a job whose kind has a handler. */
  function Call<P, L>(handlers: map<string, L>, j: Job<P>): Activation<P, L>
    requires j.kind in handlers
  {
    Activation(Job(j.id, j.kind, j.payload, j.enqueuedAt, j.attempts + 1), handlers[j.kind])
  }

  lemma {:induction false} PumpKeeps<P, L>(c: Config, s: State<P, L>)
    ensures var t := Pump(c, s);
            && t.handlers == s.handlers && t.timers == s.timers && t.done == s.done
            && t.pendingRetries == s.pendingRetries && t.processed == s.processed
            && (forall a | a in s.running :: a in t.running)
            && (forall d | d in s.dead :: d in t.dead)
    decreases |s.pending|
  {
    if s.inflight < c.concurrency && s.pending != [] {
      PumpKeeps(c, StartHead(s));
    }
  }

  /** A waiting job stays, or runs with the handler of its kind, or is dropped for want of one. */
  lemma {:induction false} PumpPlaces<P, L>(c: Config, s: State<P, L>, j: Job<P>)
    requires j in s.pending
    ensures var t := Pump(c, s);
            || j in t.pending
            || (j.kind in s.handlers && Call(s.handlers, j) in t.running)
            || (j.kind !in s.handlers && DeadLetter(j, None) in t.dead)
    decreases |s.pending|
  {
    if s.inflight < c.concurrency && s.pending != [] {
      var s' := StartHead(s);
      if j in s'.pending {
        PumpPlaces(c, s', j);
      } else {
        assert j == s.pending[0];
        PumpKeeps(c, s');
      }
    }
  }

  /** `after` is what is left of `before` when jobs were taken from its front. */
  predicate LeftOver<P(==)>(after: seq<Job<P>>, before: seq<Job<P>>) {
    |after| <= |before| && after == before[|before| - |after|..]
  }

  lemma {:induction false} PumpTakesFirst<P, L>(c: Config, s: State<P, L>)
    ensures LeftOver(Pump(c, s).pending, s.pending)
    decreases |s.pending|
  {
    if s.inflight < c.concurrency && s.pending != [] {
      PumpTakesFirst(c, StartHead(s));
    }
  }

  /** What `pump` starts runs with the handler of its kind, and it drops only jobs without one. */
  lemma {:induction false} PumpOrigins<P, L>(c: Config, s: State<P, L>)
    ensures var t := Pump(c, s);
            && (forall j | j in t.pending :: j in s.pending)
            && (forall a | a in t.running && a !in s.running ::
                  exists j :: j in s.pending && j.kind in s.handlers && a == Call(s.handlers, j))
            && (forall d | d in t.dead && d !in s.dead ::
                  d.error.None? && d.job in s.pending && d.job.kind !in s.handlers)
    decreases |s.pending|
  {
    if s.inflight < c.concurrency && s.pending != [] {
      var j, s' := s.pending[0], StartHead(s);
      PumpOrigins(c, s');
      assert j in s.pending && forall x | x in s'.pending :: x in s.pending;
    }
  }

  // ---- one turn ----

  /**
    A call that settles: success processes its job; failure before the last attempt arms a retry
    timer; the last failure dead-letters the job with its error.
   */
  lemma SettleOutcome<P, L>(c: Config, s: State<P, L>, k: nat, error: Option<string>)
    requires k < |s.running|
    ensures var job := s.running[k].job; var t := Next(c, s, Settle(k, error));
            if error.None? then
              t.done == s.done + [job] && t.processed == s.processed + 1
              && t.timers == s.timers && t.pendingRetries == s.pendingRetries
            else
              && t.done == s.done && t.processed == s.processed
              && if job.attempts < c.maxAttempts
                 then t.timers == s.timers + [job] && t.pendingRetries == s.pendingRetries + 1
                 else DeadLetter(job, error) in t.dead
                      && t.timers == s.timers && t.pendingRetries == s.pendingRetries
  {
    PumpKeeps(c, Unwind(c, s, k, error));
  }

  /**
    A job that is enqueued gets in line behind all others, and then it waits, runs with the handler
    of its kind, or is dropped for want of one.
   */
  lemma EnqueueOutcome<P, L>(c: Config, s: State<P, L>, kind: string, payload: P, now: int)
    ensures var j := Job(s.nextId, kind, payload, now, 0); var t := Next(c, s, Enqueue(kind, payload, now));
            && LeftOver(t.pending, s.pending + [j])
            && (|| j in t.pending
                || (kind in s.handlers && Call(s.handlers, j) in t.running)
                || (kind !in s.handlers && DeadLetter(j, None) in t.dead))
  {
    var j := Job(s.nextId, kind, payload, now, 0);
    PumpTakesFirst(c, Push(s, kind, payload, now));
    assert j in Push(s, kind, payload, now).pending;
    PumpPlaces(c, Push(s, kind, payload, now), j);
  }

  /** A retry that fires puts its job back as it is, behind all others, and the queue goes on from there. */
  lemma FireOutcome<P, L>(c: Config, s: State<P, L>, k: nat)
    requires k < |s.timers|
    ensures var j := s.timers[k]; var t := Next(c, s, Fire(k));
            && t.timers == Without(s.timers, k) && t.pendingRetries == s.pendingRetries - 1
            && LeftOver(t.pending, s.pending + [j])
            && (|| j in t.pending
                || (j.kind in s.handlers && Call(s.handlers, j) in t.running)
                || (j.kind !in s.handlers && DeadLetter(j, None) in t.dead))
  {
    var j := s.timers[k];
    assert j in Requeue(s, k).pending;
    PumpPlaces(c, Requeue(s, k), j);
    PumpTakesFirst(c, Requeue(s, k));
    PumpKeeps(c, Requeue(s, k));
  }

  /** Over any run `processed` counts the calls that succeeded. */
  function Successes<P, L>(events: seq<Event<P, L>>): nat {
    if events == [] then 0
    else (if events[0].Settle? && events[0].error.None? then 1 else 0) + Successes(events[1..])
  }

  lemma NextProcessed<P, L>(c: Config, s: State<P, L>, e: Event<P, L>)
    requires Enabled(s, e)
    ensures Next(c, s, e).processed == s.processed + if e.Settle? && e.error.None? then 1 else 0
  {
    match e
    case Register(_, _) =>
    case Enqueue(kind, payload, now) => PumpKeeps(c, Push(s, kind, payload, now));
    case Advance(_, _) =>
    case Settle(k, error) => SettleOutcome(c, s, k, error);
    case Fire(k) => PumpKeeps(c, Requeue(s, k));
  }

  lemma {:induction false} ProcessedAreSuccesses<P, L>(c: Config, s: State<P, L>, events: seq<Event<P, L>>)
    requires Runs(c, s, events)
    ensures Final(c, s, events).processed == s.processed + Successes(events)
    decreases |events|
  {
    if events != [] {
      NextProcessed(c, s, events[0]);
      ProcessedAreSuccesses(c, Next(c, s, events[0]), events[1..]);
    }
  }

  // ---- which handler ----

  /** The handler of the last registration for a kind. */
  function LastRegistered<P, L>(events: seq<Event<P, L>>, kind: string): Option<L> {
    if events == [] then None
    else
      var later := LastRegistered(events[1..], kind);
      if later.Some? then later
      else if events[0].Register? && events[0].kind == kind then Some(events[0].handler)
      else None
  }

  function HandlerOf<P, L>(s: State<P, L>, kind: string): Option<L> {
    if kind in s.handlers then Some(s.handlers[kind]) else None
  }

  lemma NextHandlers<P, L>(c: Config, s: State<P, L>, e: Event<P, L>, kind: string)
    requires Enabled(s, e)
    ensures HandlerOf(Next(c, s, e), kind)
         == if e.Register? && e.kind == kind then Some(e.handler) else HandlerOf(s, kind)
  {
    match e
    case Register(_, _) =>
    case Enqueue(k, payload, now) => PumpKeeps(c, Push(s, k, payload, now));
    case Advance(_, _) =>
    case Settle(k, error) => PumpKeeps(c, Unwind(c, s, k, error));
    case Fire(k) => PumpKeeps(c, Requeue(s, k));
  }

  lemma {:induction false} RunHandlers<P, L>(c: Config, s: State<P, L>, events: seq<Event<P, L>>, kind: string)
    requires Runs(c, s, events)
    ensures HandlerOf(Final(c, s, events), kind)
         == if LastRegistered(events, kind).Some? then LastRegistered(events, kind) else HandlerOf(s, kind)
    decreases |events|
  {
    if events != [] {
      NextHandlers(c, s, events[0], kind);
      RunHandlers(c, Next(c, s, events[0]), events[1..], kind);
    }
  }

  /** In a new queue a kind has the handler of its last registration, and none before the first. */
  lemma HandlersAreRegistered<P, L>(c: Config, events: seq<Event<P, L>>, kind: string)
    requires Runs(c, Empty(map[]), events)
    ensures HandlerOf(Final(c, Empty(map[]), events), kind) == LastRegistered(events, kind)
  {
    RunHandlers(c, Empty(map[]), events, kind);
  }

  lemma NextDrops<P(!new), L>(c: Config, s: State<P, L>, e: Event<P, L>, d: DeadLetter<P>)
    requires Enabled(s, e) && d in Next(c, s, e).dead && d !in s.dead && d.error.None?
    ensures d.job.kind !in s.handlers
  {
    match e
    case Register(_, _) =>
    case Enqueue(kind, payload, now) => PumpOrigins(c, Push(s, kind, payload, now));
    case Advance(_, _) =>
    case Settle(k, error) => PumpOrigins(c, Unwind(c, s, k, error));
    case Fire(k) => PumpOrigins(c, Requeue(s, k));
  }

  /** Once a kind has a handler no job of that kind is ever dropped. */
  lemma {:induction false} RegisteredNeverDropped<P(!new), L>(
      c: Config, s: State<P, L>, events: seq<Event<P, L>>, d: DeadLetter<P>)
    requires Runs(c, s, events) && d.error.None? && d.job.kind in s.handlers
    ensures d in Final(c, s, events).dead ==> d in s.dead
    decreases |events|
  {
    if events != [] {
      var s' := Next(c, s, events[0]);
      NextHandlers(c, s, events[0], d.job.kind);
      RegisteredNeverDropped(c, s', events[1..], d);
      if d in s'.dead && d !in s.dead {
        NextDrops(c, s, events[0], d);
      }
    }
  }

  // ---- what a job carries ----

  /** The jobs as they were enqueued, in order; job `id` is at place `id - 1`. */
  function Entries<P, L>(events: seq<Event<P, L>>, nextId: nat): seq<Job<P>> {
    if events == [] then []
    else if events[0].Enqueue? then
      [Job(nextId, events[0].kind, events[0].payload, events[0].now, 0)] + Entries(events[1..], nextId + 1)
    else Entries(events[1..], nextId)
  }

  /** But for its attempts the job is the one that was enqueued under its id. */
  predicate Booked<P(==)>(book: seq<Job<P>>, j: Job<P>) {
    && 1 <= j.id <= |book|
    && var entry := book[j.id - 1];
       entry.id == j.id && entry.kind == j.kind && entry.payload == j.payload && entry.enqueuedAt == j.enqueuedAt
  }

  ghost predicate AllBooked<P, L>(book: seq<Job<P>>, s: State<P, L>) {
    && |book| + 1 == s.nextId
    && (forall j | j in s.pending :: Booked(book, j))
    && (forall a | a in s.running :: Booked(book, a.job))
    && (forall j | j in s.timers :: Booked(book, j))
    && (forall j | j in s.done :: Booked(book, j))
    && (forall d | d in s.dead :: Booked(book, d.job))
  }

  lemma {:induction false} PumpBooked<P, L>(c: Config, s: State<P, L>, book: seq<Job<P>>)
    requires AllBooked(book, s)
    ensures AllBooked(book, Pump(c, s))
    decreases |s.pending|
  {
    if s.inflight < c.concurrency && s.pending != [] {
      assert s.pending[0] in s.pending;
      PumpBooked(c, StartHead(s), book);
    }
  }

  lemma PushBooked<P, L>(s: State<P, L>, book: seq<Job<P>>, kind: string, payload: P, now: int)
    requires AllBooked(book, s)
    ensures AllBooked(book + [Job(s.nextId, kind, payload, now, 0)], Push(s, kind, payload, now))
  {
    var more := book + [Job(s.nextId, kind, payload, now, 0)];
    assert forall j | Booked(book, j) :: Booked(more, j);
  }

  lemma NextBooked<P, L>(c: Config, s: State<P, L>, e: Event<P, L>, book: seq<Job<P>>)
    requires Enabled(s, e) && AllBooked(book, s)
    ensures AllBooked(book + if e.Enqueue? then [Job(s.nextId, e.kind, e.payload, e.now, 0)] else [], Next(c, s, e))
  {
    assert book + [] == book;
    match e
    case Register(_, _) =>
    case Enqueue(kind, payload, now) =>
      PushBooked(s, book, kind, payload, now);
      PumpBooked(c, Push(s, kind, payload, now), book + [Job(s.nextId, kind, payload, now, 0)]);
    case Advance(k, local) =>
      assert s.running[k] in s.running;
    case Settle(k, error) =>
      assert s.running[k] in s.running;
      PumpBooked(c, Unwind(c, s, k, error), book);
    case Fire(k) =>
      assert s.timers[k] in s.timers;
      PumpBooked(c, Requeue(s, k), book);
  }

  lemma {:induction false} RunBooked<P, L>(c: Config, s: State<P, L>, events: seq<Event<P, L>>, book: seq<Job<P>>)
    requires Runs(c, s, events) && AllBooked(book, s)
    ensures AllBooked(book + Entries(events, s.nextId), Final(c, s, events))
    decreases |events|
  {
    if events == [] {
      assert book + [] == book;
    } else {
      var e := events[0];
      var entry := if e.Enqueue? then [Job(s.nextId, e.kind, e.payload, e.now, 0)] else [];
      NextBooked(c, s, e, book);
      RunBooked(c, Next(c, s, e), events[1..], book + entry);
      assert book + entry + Entries(events[1..], Next(c, s, e).nextId) == book + Entries(events, s.nextId);
    }
  }

  /** Over any run every job, wherever it is, carries the kind, payload and time it was enqueued with. */
  lemma JobsKeepContent<P, L>(c: Config, handlers: map<string, L>, events: seq<Event<P, L>>)
    requires Runs(c, Empty(handlers), events)
    ensures AllBooked(Entries(events, 1), Final(c, Empty(handlers), events))
  {
    var none: seq<Job<P>> := [];
    RunBooked(c, Empty(handlers), events, none);
    assert none + Entries(events, 1) == Entries(events, 1);
  }
}
