/**
  `WorkerQueue` of src/lib/queue.ts with its mutable fields. Each method is one
  event-loop turn (or the part of one that the source writes as a function) and is
  proved to do what the corresponding step of QueueSpec does.
 */
module WorkerQueues {
  import opened Wrappers
  import opened QueueSpec

  class WorkerQueue<P, L> {
    const config: Config

    var queue: seq<Job<P>>
    var handlers: map<string, L>
    var inflight: int
    var pendingRetries: int
    var nextId: nat
    var processed: int
    var failed: int
    var deadLetter: seq<DeadLetter<P>>

    // What the JavaScript runtime keeps: suspended `run` calls and armed timers.
    var running: seq<Activation<P, L>>
    var timers: seq<Job<P>>

    // History: the jobs `processed` counts.
    ghost var done: seq<Job<P>>

    ghost function Abs(): State<P, L>
      reads this
    {
      State(handlers, queue, running, timers, done, deadLetter, nextId, inflight, pendingRetries, processed, failed)
    }

    constructor (concurrency: Option<int>, maxAttempts: Option<int>)
      ensures config.Valid()
      ensures concurrency == None ==> config.concurrency == 4
      ensures maxAttempts == None ==> config.maxAttempts == 3
      ensures concurrency.Some? && concurrency.value >= 1 ==> config.concurrency == concurrency.value
      ensures maxAttempts.Some? && maxAttempts.value >= 1 ==> config.maxAttempts == maxAttempts.value
      ensures concurrency.Some? && concurrency.value < 1 ==> config.concurrency == 1
      ensures maxAttempts.Some? && maxAttempts.value < 1 ==> config.maxAttempts == 1
      ensures Abs() == Empty(map[])
    {
      var c := if concurrency.Some? then concurrency.value else 4;
      var m := if maxAttempts.Some? then maxAttempts.value else 3;
      config := Config(if c < 1 then 1 else c, if m < 1 then 1 else m);
      queue, handlers, inflight, pendingRetries, nextId := [], map[], 0, 0, 1;
      processed, failed, deadLetter, running, timers, done := 0, 0, [], [], [], [];
    }

    method On(kind: string, handler: L)
      modifies this`handlers
      ensures Abs() == Next(config, old(Abs()), Register(kind, handler))
    {
      handlers := handlers[kind := handler];
    }

    method Enqueue(kind: string, payload: P, now: int) returns (id: nat)
      modifies this
      ensures id == old(nextId)
      ensures Abs() == Next(config, old(Abs()), Event.Enqueue(kind, payload, now))
    {
      id := nextId;
      nextId := nextId + 1;
      queue := queue + [Job(id, kind, payload, now, 0)];
      assert Abs() == Push(old(Abs()), kind, payload, now);
      Pump();
    }

    /** Starts jobs while a slot is free; `Run` may re-enter it before it returns. */
    method Pump()
      modifies this
      ensures Abs() == QueueSpec.Pump(config, old(Abs()))
      decreases |queue|, 1
    {
      ghost var goal := QueueSpec.Pump(config, Abs());
      while inflight < config.concurrency && queue != []
        invariant QueueSpec.Pump(config, Abs()) == goal
        invariant |queue| <= old(|queue|)
        decreases |queue|
      {
        var job := queue[0];
        ghost var head := StartHead(Abs());
        queue := queue[1..];
        inflight := inflight + 1;
        PumpTwice(config, head);
        Run(job);
      }
    }

    /** The synchronous prefix of `run`: up to the first await, or to the end when no handler is registered. */
    method Run(job: Job<P>)
      modifies this
      ensures job.kind in old(handlers) ==>
        var call := Activation(job.(attempts := job.attempts + 1), old(handlers)[job.kind]);
        Abs() == old(Abs()).(running := old(running) + [call])
      ensures job.kind !in old(handlers) ==>
        Abs() == QueueSpec.Pump(config, old(Abs()).(failed := old(failed) + 1, inflight := old(inflight) - 1,
                                                          dead := old(deadLetter) + [DeadLetter(job, None)]))
      ensures |queue| <= old(|queue|)
      decreases |queue|, 2
    {
      if job.kind !in handlers {
        failed := failed + 1;
        deadLetter := deadLetter + [DeadLetter(job, None)];
        inflight := inflight - 1;
        PumpDrops(config, Abs());
        Pump();
        return;
      }
      running := running + [Activation(job.(attempts := job.attempts + 1), handlers[job.kind])];
    }

    /** The continuation of `run` when the promise of the handler awaited by call `k` settles. */
    method RunSettled(k: nat, error: Option<string>)
      requires k < |running|
      modifies this
      ensures Abs() == Next(config, old(Abs()), Settle(k, error))
    {
      var job := running[k].job;
      running := running[..k] + running[k + 1..];
      if error.None? {
        processed := processed + 1;
        done := done + [job];
      } else if job.attempts < config.maxAttempts {
        pendingRetries := pendingRetries + 1;
        timers := timers + [job];
      } else {
        failed := failed + 1;
        deadLetter := deadLetter + [DeadLetter(job, error)];
      }
      inflight := inflight - 1;
      assert Abs() == Unwind(config, old(Abs()), k, error);
      Pump();
    }

    method RetryTimer(k: nat)
      requires k < |timers|
      modifies this
      ensures Abs() == Next(config, old(Abs()), Fire(k))
    {
      queue := queue + [timers[k]];
      timers := timers[..k] + timers[k + 1..];
      pendingRetries := pendingRetries - 1;
      assert Abs() == Requeue(old(Abs()), k);
      Pump();
    }

    /** The loop condition of `drain`. */
    method KeepsDraining() returns (busy: bool)
      requires CountersExact(Abs())
      ensures busy <==> !Drained(Abs())
    {
      busy := queue != [] || inflight > 0 || pendingRetries > 0;
    }
  }

  lemma {:induction false} PumpTwice<P, L>(c: Config, s: State<P, L>)
    ensures Pump(c, Pump(c, s)) == Pump(c, s)
    decreases |s.pending|
  {
    if s.inflight < c.concurrency && s.pending != [] {
      PumpTwice(c, StartHead(s));
    }
  }

  lemma {:induction false} PumpDrops<P, L>(c: Config, s: State<P, L>)
    ensures |Pump(c, s).pending| <= |s.pending|
    decreases |s.pending|
  {
    if s.inflight < c.concurrency && s.pending != [] {
      PumpDrops(c, StartHead(s));
    }
  }
}
