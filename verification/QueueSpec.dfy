/**
  The in-process job queue of src/lib/queue.ts as a state machine over event-loop
  turns. A turn runs to completion: an `enqueue` call, the continuation of `run`
  after a handler's promise settled, or a retry timer. Every turn ends in `pump`.

  A suspended `run` call is an `Activation`: its job together with the local state
  of the handler it awaits, so that other modules can say what a handler is doing.
 */
module QueueSpec {
  import opened Wrappers
  import opened Sums

  datatype Job<P> = Job(id: nat, kind: string, payload: P, enqueuedAt: int, attempts: nat)

  datatype Activation<P, L> = Activation(job: Job<P>, local: L)

  /** `error` is None for a job whose type has no handler. */
  datatype DeadLetter<P> = DeadLetter(job: Job<P>, error: Option<string>)

  datatype Config = Config(concurrency: nat, maxAttempts: nat) {
    /** Established by the constructor's `Math.max(1, ...)`. */
    predicate Valid() {
      1 <= concurrency && 1 <= maxAttempts
    }
  }

  /** `handlers` maps a job type to the local state its handler starts in. */
  datatype State<P, L> = State(
    handlers: map<string, L>,
    pending: seq<Job<P>>,
    running: seq<Activation<P, L>>,
    timers: seq<Job<P>>,
    done: seq<Job<P>>,
    dead: seq<DeadLetter<P>>,
    nextId: nat,
    inflight: int,
    pendingRetries: int,
    processed: int,
    failed: int)

  datatype Event<P, L> =
    | Register(kind: string, handler: L)
    | Enqueue(kind: string, payload: P, now: int)
    | Advance(call: nat, local: L)
    | Settle(call: nat, error: Option<string>)
    | Fire(timer: nat)

  function Empty<P, L>(handlers: map<string, L>): State<P, L> {
    State(handlers, [], [], [], [], [], 1, 0, 0, 0, 0)
  }

  function Without<T>(s: seq<T>, i: nat): seq<T>
    requires i < |s|
  {
    s[..i] + s[i + 1..]
  }

  // ---- the turns ----

  /** The synchronous prefix of `run` on the job at the head of the queue. */
  function StartHead<P, L>(s: State<P, L>): State<P, L>
    requires s.pending != []
  {
    var job := s.pending[0];
    var rest := s.(pending := s.pending[1..]);
    if job.kind in s.handlers then
      rest.(inflight := s.inflight + 1,
            running := s.running + [Activation(job.(attempts := job.attempts + 1), s.handlers[job.kind])])
    else
      rest.(failed := s.failed + 1, dead := s.dead + [DeadLetter(job, None)])
  }

  function Pump<P, L>(c: Config, s: State<P, L>): State<P, L>
    decreases |s.pending|
  {
    if s.inflight < c.concurrency && s.pending != [] then Pump(c, StartHead(s)) else s
  }

  function Push<P, L>(s: State<P, L>, kind: string, payload: P, now: int): State<P, L> {
    s.(pending := s.pending + [Job(s.nextId, kind, payload, now, 0)], nextId := s.nextId + 1)
  }

  /** `run` after the handler's promise settled, up to the `pump` in `finally`. */
  function Unwind<P, L>(c: Config, s: State<P, L>, k: nat, error: Option<string>): State<P, L>
    requires k < |s.running|
  {
    var job := s.running[k].job;
    var left := s.(running := Without(s.running, k), inflight := s.inflight - 1);
    if error.None? then
      left.(processed := s.processed + 1, done := s.done + [job])
    else if job.attempts < c.maxAttempts then
      left.(pendingRetries := s.pendingRetries + 1, timers := s.timers + [job])
    else
      left.(failed := s.failed + 1, dead := s.dead + [DeadLetter(job, error)])
  }

  function Requeue<P, L>(s: State<P, L>, k: nat): State<P, L>
    requires k < |s.timers|
  {
    s.(pending := s.pending + [s.timers[k]], timers := Without(s.timers, k),
       pendingRetries := s.pendingRetries - 1)
  }

  predicate Enabled<P, L>(s: State<P, L>, e: Event<P, L>) {
    match e
    case Register(_, _) => true
    case Enqueue(_, _, _) => true
    case Advance(k, _) => k < |s.running|
    case Settle(k, _) => k < |s.running|
    case Fire(k) => k < |s.timers|
  }

  function Next<P, L>(c: Config, s: State<P, L>, e: Event<P, L>): State<P, L>
    requires Enabled(s, e)
  {
    match e
    case Register(kind, handler) => s.(handlers := s.handlers[kind := handler])
    case Enqueue(kind, payload, now) => Pump(c, Push(s, kind, payload, now))
    case Advance(k, local) => s.(running := s.running[k := s.running[k].(local := local)])
    case Settle(k, error) => Pump(c, Unwind(c, s, k, error))
    case Fire(k) => Pump(c, Requeue(s, k))
  }

  // ---- where a job can be ----

  datatype Place<P, L> =
    | Pending(job: Job<P>)
    | Running(call: Activation<P, L>)
    | Waiting(job: Job<P>)
    | Done(job: Job<P>)
    | Dead(letter: DeadLetter<P>)
  {
    function Occupant(): Job<P> {
      match this
      case Running(call) => call.job
      case Dead(letter) => letter.job
      case _ => job
    }
  }

  function AtPending<P, L>(f: Place<P, L> -> nat): Job<P> -> nat { j => f(Pending(j)) }
  function AtRunning<P, L>(f: Place<P, L> -> nat): Activation<P, L> -> nat { a => f(Running(a)) }
  function AtWaiting<P, L>(f: Place<P, L> -> nat): Job<P> -> nat { j => f(Waiting(j)) }
  function AtDone<P, L>(f: Place<P, L> -> nat): Job<P> -> nat { j => f(Done(j)) }
  function AtDead<P, L>(f: Place<P, L> -> nat): DeadLetter<P> -> nat { d => f(Dead(d)) }

  /** Sum of a weight over every place that holds a job. */
  function Tally<P, L>(s: State<P, L>, f: Place<P, L> -> nat): nat {
    Sum(s.pending, AtPending(f)) + Sum(s.running, AtRunning(f)) + Sum(s.timers, AtWaiting(f))
    + Sum(s.done, AtDone(f)) + Sum(s.dead, AtDead(f))
  }

  /** Where `run` puts a job it takes from the queue. */
  function Started<P, L>(handlers: map<string, L>, j: Job<P>): Place<P, L> {
    if j.kind in handlers then Running(Activation(j.(attempts := j.attempts + 1), handlers[j.kind]))
    else Dead(DeadLetter(j, None))
  }

  ghost predicate PumpNeutral<P(!new), L>(handlers: map<string, L>, f: Place<P, L> -> nat) {
    forall j: Job<P> :: f(Started(handlers, j)) == f(Pending(j))
  }

  ghost predicate PumpShrinks<P(!new), L>(handlers: map<string, L>, f: Place<P, L> -> nat) {
    forall j: Job<P> :: f(Started(handlers, j)) <= f(Pending(j))
  }

  /** Where a settled call leaves its job. */
  function Settled<P, L>(c: Config, j: Job<P>, error: Option<string>): Place<P, L> {
    if error.None? then Done(j)
    else if j.attempts < c.maxAttempts then Waiting(j)
    else Dead(DeadLetter(j, error))
  }

  lemma StartHeadTally<P(!new), L>(s: State<P, L>, f: Place<P, L> -> nat)
    requires s.pending != []
    ensures Tally(StartHead(s), f) + f(Pending(s.pending[0]))
         == Tally(s, f) + f(Started(s.handlers, s.pending[0]))
  {
    var job := s.pending[0];
    if job.kind in s.handlers {
      SumPush(s.running, Activation(job.(attempts := job.attempts + 1), s.handlers[job.kind]), AtRunning(f));
    } else {
      SumPush(s.dead, DeadLetter(job, None), AtDead(f));
    }
  }

  lemma {:induction false} PumpTally<P(!new), L>(c: Config, s: State<P, L>, f: Place<P, L> -> nat)
    requires PumpShrinks(s.handlers, f)
    ensures Tally(Pump(c, s), f) <= Tally(s, f)
    ensures PumpNeutral(s.handlers, f) ==> Tally(Pump(c, s), f) == Tally(s, f)
    decreases |s.pending|
  {
    if s.inflight < c.concurrency && s.pending != [] {
      StartHeadTally(s, f);
      PumpTally(c, StartHead(s), f);
    }
  }

  lemma PushTally<P(!new), L>(s: State<P, L>, kind: string, payload: P, now: int, f: Place<P, L> -> nat)
    ensures Tally(Push(s, kind, payload, now), f) == Tally(s, f) + f(Pending(Job(s.nextId, kind, payload, now, 0)))
  {
    SumPush(s.pending, Job(s.nextId, kind, payload, now, 0), AtPending(f));
  }

  lemma RequeueTally<P(!new), L>(s: State<P, L>, k: nat, f: Place<P, L> -> nat)
    requires k < |s.timers|
    ensures Tally(Requeue(s, k), f) + f(Waiting(s.timers[k])) == Tally(s, f) + f(Pending(s.timers[k]))
  {
    SumRemove(s.timers, k, AtWaiting(f));
    SumPush(s.pending, s.timers[k], AtPending(f));
  }

  lemma UnwindTally<P(!new), L>(c: Config, s: State<P, L>, k: nat, error: Option<string>, f: Place<P, L> -> nat)
    requires k < |s.running|
    ensures Tally(Unwind(c, s, k, error), f) + f(Running(s.running[k]))
         == Tally(s, f) + f(Settled(c, s.running[k].job, error))
  {
    var job := s.running[k].job;
    SumRemove(s.running, k, AtRunning(f));
    SumPush(s.done, job, AtDone(f));
    SumPush(s.timers, job, AtWaiting(f));
    SumPush(s.dead, DeadLetter(job, error), AtDead(f));
  }

  /** How each turn moves weight: the places it empties and the places it fills. */
  lemma NextTally<P(!new), L>(c: Config, s: State<P, L>, e: Event<P, L>, f: Place<P, L> -> nat)
    requires Enabled(s, e) && PumpShrinks(s.handlers, f)
    ensures var before := Tally(s, f); var after := Tally(Next(c, s, e), f);
            match e
            case Register(_, _) => after == before
            case Enqueue(kind, payload, now) =>
              var entry := f(Pending(Job(s.nextId, kind, payload, now, 0)));
              && after <= before + entry
              && (PumpNeutral(s.handlers, f) ==> after == before + entry)
            case Advance(k, local) =>
              after + f(Running(s.running[k])) == before + f(Running(s.running[k].(local := local)))
            case Settle(k, error) =>
              var gone, kept := f(Running(s.running[k])), f(Settled(c, s.running[k].job, error));
              && after + gone <= before + kept
              && (PumpNeutral(s.handlers, f) ==> after + gone == before + kept)
            case Fire(k) =>
              var gone, kept := f(Waiting(s.timers[k])), f(Pending(s.timers[k]));
              && after + gone <= before + kept
              && (PumpNeutral(s.handlers, f) ==> after + gone == before + kept)
  {
    match e
    case Register(_, _) =>
    case Enqueue(kind, payload, now) =>
      PushTally(s, kind, payload, now, f);
      PumpTally(c, Push(s, kind, payload, now), f);
    case Advance(k, local) =>
      SumUpdate(s.running, k, s.running[k].(local := local), AtRunning(f));
    case Settle(k, error) =>
      UnwindTally(c, s, k, error, f);
      PumpTally(c, Unwind(c, s, k, error), f);
    case Fire(k) =>
      RequeueTally(s, k, f);
      PumpTally(c, Requeue(s, k), f);
  }

  // ---- the invariant ----

  /** 1 at the place of job `id`, 0 elsewhere. */
  function Holds<P, L>(id: nat): Place<P, L> -> nat {
    (p: Place<P, L>) => if p.Occupant().id == id then 1 else 0
  }

  /** Every id handed out so far is in exactly one place, and no other id is anywhere. */
  ghost predicate Conserved<P, L>(s: State<P, L>) {
    forall id: nat :: Tally(s, Holds(id)) == if 1 <= id < s.nextId then 1 else 0
  }

  ghost predicate CountersExact<P, L>(s: State<P, L>) {
    && s.inflight == |s.running|
    && s.pendingRetries == |s.timers|
    && s.processed == |s.done|
    && s.failed == |s.dead|
  }

  ghost predicate AttemptsBounded<P, L>(c: Config, s: State<P, L>) {
    && (forall j | j in s.pending :: j.attempts < c.maxAttempts)
    && (forall a | a in s.running :: 1 <= a.job.attempts <= c.maxAttempts)
    && (forall j | j in s.timers :: 1 <= j.attempts < c.maxAttempts)
    && (forall j | j in s.done :: 1 <= j.attempts <= c.maxAttempts)
    && (forall d | d in s.dead :: if d.error.Some? then d.job.attempts == c.maxAttempts
                                  else d.job.attempts < c.maxAttempts)
  }

  /** What also holds between the statements of a turn, while `pump` is still to run. */
  ghost predicate MidTurn<P, L>(c: Config, s: State<P, L>) {
    && Conserved(s)
    && CountersExact(s)
    && AttemptsBounded(c, s)
    && s.inflight <= c.concurrency
    && 1 <= s.nextId
  }

  /** No job waits while a slot is free. */
  predicate WorkConserving<P, L>(c: Config, s: State<P, L>) {
    s.inflight == c.concurrency || s.pending == []
  }

  ghost predicate Inv<P, L>(c: Config, s: State<P, L>) {
    MidTurn(c, s) && WorkConserving(c, s)
  }

  lemma {:induction false} PumpMidTurn<P(!new), L>(c: Config, s: State<P, L>)
    requires MidTurn(c, s)
    ensures Inv(c, Pump(c, s))
    ensures Pump(c, s).handlers == s.handlers && Pump(c, s).nextId == s.nextId
    decreases |s.pending|
  {
    if s.inflight < c.concurrency && s.pending != [] {
      var s' := StartHead(s);
      forall id: nat ensures Tally(s', Holds(id)) == Tally(s, Holds(id)) {
        StartHeadTally(s, Holds(id));
      }
      assert s.pending[0] in s.pending;
      PumpMidTurn(c, s');
    }
  }

  lemma EmptyInv<P(!new), L>(c: Config, handlers: map<string, L>)
    requires c.Valid()
    ensures Inv<P, L>(c, Empty(handlers))
  {
  }

  lemma PushMidTurn<P(!new), L>(c: Config, s: State<P, L>, kind: string, payload: P, now: int)
    requires c.Valid() && MidTurn(c, s)
    ensures MidTurn(c, Push(s, kind, payload, now))
  {
    var t := Push(s, kind, payload, now);
    forall id: nat ensures Tally(t, Holds(id)) == if 1 <= id < t.nextId then 1 else 0 {
      PushTally(s, kind, payload, now, Holds(id));
    }
  }

  lemma UnwindMidTurn<P(!new), L>(c: Config, s: State<P, L>, k: nat, error: Option<string>)
    requires MidTurn(c, s) && k < |s.running|
    ensures MidTurn(c, Unwind(c, s, k, error))
  {
    var t := Unwind(c, s, k, error);
    assert s.running[k] in s.running;
    forall id: nat ensures Tally(t, Holds(id)) == Tally(s, Holds(id)) {
      UnwindTally(c, s, k, error, Holds(id));
    }
  }

  lemma RequeueMidTurn<P(!new), L>(c: Config, s: State<P, L>, k: nat)
    requires MidTurn(c, s) && k < |s.timers|
    ensures MidTurn(c, Requeue(s, k))
  {
    var t := Requeue(s, k);
    assert s.timers[k] in s.timers;
    forall id: nat ensures Tally(t, Holds(id)) == Tally(s, Holds(id)) {
      RequeueTally(s, k, Holds(id));
    }
  }

  lemma AdvanceInv<P(!new), L>(c: Config, s: State<P, L>, k: nat, local: L)
    requires Inv(c, s) && k < |s.running|
    ensures Inv(c, Next(c, s, Advance(k, local)))
  {
    var t := Next(c, s, Advance(k, local));
    forall id: nat ensures Tally(t, Holds(id)) == Tally(s, Holds(id)) {
      SumUpdate(s.running, k, s.running[k].(local := local), AtRunning(Holds<P, L>(id)));
    }
    forall a | a in t.running ensures 1 <= a.job.attempts <= c.maxAttempts {
      var i :| 0 <= i < |t.running| && t.running[i] == a;
      assert s.running[i] in s.running && a.job == s.running[i].job;
    }
  }

  /** Every turn keeps the invariant. */
  lemma NextInv<P(!new), L>(c: Config, s: State<P, L>, e: Event<P, L>)
    requires c.Valid() && Inv(c, s) && Enabled(s, e)
    ensures Inv(c, Next(c, s, e))
    ensures !e.Register? ==> Next(c, s, e).handlers == s.handlers
  {
    match e
    case Register(kind, handler) =>
      assert forall id: nat :: Tally(Next(c, s, e), Holds(id)) == Tally(s, Holds(id));
    case Enqueue(kind, payload, now) =>
      PushMidTurn(c, s, kind, payload, now);
      PumpMidTurn(c, Push(s, kind, payload, now));
    case Advance(k, local) =>
      AdvanceInv(c, s, k, local);
    case Settle(k, error) =>
      UnwindMidTurn(c, s, k, error);
      PumpMidTurn(c, Unwind(c, s, k, error));
    case Fire(k) =>
      RequeueMidTurn(c, s, k);
      PumpMidTurn(c, Requeue(s, k));
  }

  /** The loop condition of `drain`, negated. */
  predicate Drained<P, L>(s: State<P, L>) {
    s.pending == [] && s.inflight == 0 && s.pendingRetries == 0
  }
}
