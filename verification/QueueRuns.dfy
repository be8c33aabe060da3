/**
  What holds over whole runs of the queue: conservation, termination, how often handlers
  are invoked, and the order in which jobs are taken.
 */
module QueueRuns {
  import opened Wrappers
  import opened Sums
  import opened QueueSpec

  // ---- runs ----

  predicate Runs<P, L>(c: Config, s: State<P, L>, events: seq<Event<P, L>>)
    decreases |events|
  {
    events == [] || (Enabled(s, events[0]) && Runs(c, Next(c, s, events[0]), events[1..]))
  }

  function Final<P, L>(c: Config, s: State<P, L>, events: seq<Event<P, L>>): State<P, L>
    requires Runs(c, s, events)
    decreases |events|
  {
    if events == [] then s else Final(c, Next(c, s, events[0]), events[1..])
  }

  lemma {:induction false} RunInv<P(!new), L>(c: Config, s: State<P, L>, events: seq<Event<P, L>>)
    requires c.Valid() && Inv(c, s) && Runs(c, s, events)
    ensures Inv(c, Final(c, s, events))
    decreases |events|
  {
    if events != [] {
      NextInv(c, s, events[0]);
      RunInv(c, Next(c, s, events[0]), events[1..]);
    }
  }

  function Enqueues<P, L>(events: seq<Event<P, L>>): nat {
    if events == [] then 0 else (if events[0].Enqueue? then 1 else 0) + Enqueues(events[1..])
  }

  /** Unit weights turn the tally into the number of places in use. */
  lemma TallyOnes<P, L>(s: State<P, L>)
    ensures Tally(s, (p: Place<P, L>) => 1) == |s.pending| + |s.running| + |s.timers| + |s.done| + |s.dead|
  {
    var one := (p: Place<P, L>) => 1;
    SumOnes(s.pending, AtPending(one));
    SumOnes(s.running, AtRunning(one));
    SumOnes(s.timers, AtWaiting(one));
    SumOnes(s.done, AtDone(one));
    SumOnes(s.dead, AtDead(one));
  }

  lemma {:induction false} RunCounts<P(!new), L>(c: Config, s: State<P, L>, events: seq<Event<P, L>>)
    requires Runs(c, s, events)
    ensures Tally(Final(c, s, events), (p: Place<P, L>) => 1) == Tally(s, (p: Place<P, L>) => 1) + Enqueues(events)
    decreases |events|
  {
    if events != [] {
      NextTally(c, s, events[0], (p: Place<P, L>) => 1);
      RunCounts(c, Next(c, s, events[0]), events[1..]);
    }
  }

  /** After any run: every job enqueued is in exactly one place, and the counters say how many are where. */
  lemma Conservation<P(!new), L>(c: Config, handlers: map<string, L>, events: seq<Event<P, L>>)
    requires c.Valid() && Runs(c, Empty(handlers), events)
    ensures var s := Final(c, Empty(handlers), events);
            && Inv(c, s)
            && Enqueues(events) == |s.pending| + s.inflight + s.pendingRetries + s.processed + s.failed
  {
    EmptyInv<P, L>(c, handlers);
    RunInv(c, Empty(handlers), events);
    RunCounts(c, Empty(handlers), events);
    TallyOnes<P, L>(Empty(handlers));
    TallyOnes(Final(c, Empty(handlers), events));
  }

  // ---- termination ----

  predicate Internal<P, L>(e: Event<P, L>) {
    e.Settle? || e.Fire?
  }

  /** Settlements and timer expiries a job can still cause from where it is. */
  function Remaining<P, L>(c: Config): Place<P, L> -> nat {
    (p: Place<P, L>) =>
      var left := if p.Occupant().attempts <= c.maxAttempts then c.maxAttempts - p.Occupant().attempts else 0;
      match p
      case Pending(_) => if left == 0 then 1 else 2 * left - 1
      case Running(_) => 2 * left + 1
      case Waiting(_) => 2 * left
      case Done(_) => 0
      case Dead(_) => 0
  }

  lemma SettledRemaining<P(!new), L>(c: Config, call: Activation<P, L>, error: Option<string>)
    requires 1 <= call.job.attempts <= c.maxAttempts
    ensures Remaining<P, L>(c)(Settled(c, call.job, error)) < Remaining(c)(Running(call))
  {
  }

  lemma NextShrinks<P(!new), L>(c: Config, s: State<P, L>, e: Event<P, L>)
    requires c.Valid() && Inv(c, s) && Enabled(s, e) && Internal(e)
    ensures Tally(Next(c, s, e), Remaining(c)) < Tally(s, Remaining(c))
  {
    NextTally(c, s, e, Remaining(c));
    match e {
      case Settle(k, error) =>
        assert s.running[k] in s.running;
        SettledRemaining(c, s.running[k], error);
      case Fire(k) =>
        assert s.timers[k] in s.timers;
        assert Remaining<P, L>(c)(Pending(s.timers[k])) < Remaining<P, L>(c)(Waiting(s.timers[k]));
    }
  }

  /** With no new enqueues every run is finite: its length is bounded by the work left in its first state. */
  lemma {:induction false} Termination<P(!new), L>(c: Config, s: State<P, L>, events: seq<Event<P, L>>)
    requires c.Valid() && Inv(c, s) && Runs(c, s, events)
    requires forall e | e in events :: Internal(e)
    ensures |events| + Tally(Final(c, s, events), Remaining(c)) <= Tally(s, Remaining(c))
    decreases |events|
  {
    if events != [] {
      NextShrinks(c, s, events[0]);
      NextInv(c, s, events[0]);
      Termination(c, Next(c, s, events[0]), events[1..]);
    }
  }

  /** A queue that has not drained can take an internal step, so a run that cannot be extended has drained. */
  lemma NotDrainedCanStep<P(!new), L>(c: Config, s: State<P, L>)
    requires c.Valid() && Inv(c, s)
    ensures !Drained(s) <==> exists e: Event<P, L> :: Internal(e) && Enabled(s, e)
  {
    if !Drained(s) {
      if s.running != [] {
        var e: Event<P, L> := Settle(0, None);
        assert Internal(e) && Enabled(s, e);
      } else {
        var e: Event<P, L> := Fire(0);
        assert Internal(e) && Enabled(s, e);
      }
    }
  }

  /** `drain` returns only when every job enqueued was processed or dead-lettered. */
  lemma DrainComplete<P(!new), L>(c: Config, handlers: map<string, L>, events: seq<Event<P, L>>)
    requires c.Valid() && Runs(c, Empty(handlers), events)
    ensures var s := Final(c, Empty(handlers), events);
            Drained(s) <==> s.processed + s.failed == Enqueues(events)
  {
    Conservation(c, handlers, events);
  }

  // ---- how often a handler is invoked ----

  /** Handler calls that one `pump` makes on job `id`. */
  function PumpCalls<P, L>(c: Config, s: State<P, L>, id: nat): nat
    decreases |s.pending|
  {
    if s.inflight < c.concurrency && s.pending != [] then
      (if s.pending[0].id == id && s.pending[0].kind in s.handlers then 1 else 0) + PumpCalls(c, StartHead(s), id)
    else 0
  }

  /** Handler calls that one turn makes on job `id`. */
  function NextCalls<P, L>(c: Config, s: State<P, L>, e: Event<P, L>, id: nat): nat
    requires Enabled(s, e)
  {
    match e
    case Register(_, _) => 0
    case Enqueue(kind, payload, now) => PumpCalls(c, Push(s, kind, payload, now), id)
    case Advance(_, _) => 0
    case Settle(k, error) => PumpCalls(c, Unwind(c, s, k, error), id)
    case Fire(k) => PumpCalls(c, Requeue(s, k), id)
  }

  function Calls<P, L>(c: Config, s: State<P, L>, events: seq<Event<P, L>>, id: nat): nat
    requires Runs(c, s, events)
    decreases |events|
  {
    if events == [] then 0
    else NextCalls(c, s, events[0], id) + Calls(c, Next(c, s, events[0]), events[1..], id)
  }

  /** The attempts recorded on job `id`, wherever it is. */
  function AttemptsOf<P, L>(id: nat): Place<P, L> -> nat {
    (p: Place<P, L>) => if p.Occupant().id == id then p.Occupant().attempts else 0
  }

  lemma {:induction false} PumpCounts<P(!new), L>(c: Config, s: State<P, L>, id: nat)
    ensures Tally(Pump(c, s), AttemptsOf(id)) == Tally(s, AttemptsOf(id)) + PumpCalls(c, s, id)
    decreases |s.pending|
  {
    if s.inflight < c.concurrency && s.pending != [] {
      StartHeadTally(s, AttemptsOf(id));
      PumpCounts(c, StartHead(s), id);
    }
  }

  /** Where a settled call leaves its job, the attempts stay. */
  lemma UnwindCounts<P(!new), L>(c: Config, s: State<P, L>, k: nat, error: Option<string>, id: nat)
    requires k < |s.running|
    ensures Tally(Unwind(c, s, k, error), AttemptsOf(id)) == Tally(s, AttemptsOf(id))
  {
    UnwindTally(c, s, k, error, AttemptsOf(id));
    assert Settled<P, L>(c, s.running[k].job, error).Occupant() == s.running[k].job;
  }

  lemma NextCounts<P(!new), L>(c: Config, s: State<P, L>, e: Event<P, L>, id: nat)
    requires Enabled(s, e)
    ensures Tally(Next(c, s, e), AttemptsOf(id)) == Tally(s, AttemptsOf(id)) + NextCalls(c, s, e, id)
  {
    match e
    case Register(_, _) =>
    case Enqueue(kind, payload, now) =>
      PushTally(s, kind, payload, now, AttemptsOf(id));
      PumpCounts(c, Push(s, kind, payload, now), id);
    case Advance(k, local) =>
      SumUpdate(s.running, k, s.running[k].(local := local), AtRunning(AttemptsOf<P, L>(id)));
    case Settle(k, error) =>
      UnwindCounts(c, s, k, error, id);
      PumpCounts(c, Unwind(c, s, k, error), id);
    case Fire(k) =>
      RequeueTally(s, k, AttemptsOf(id));
      PumpCounts(c, Requeue(s, k), id);
  }

  lemma {:induction false} RunCalls<P(!new), L>(c: Config, s: State<P, L>, events: seq<Event<P, L>>, id: nat)
    requires Runs(c, s, events)
    ensures Tally(Final(c, s, events), AttemptsOf(id)) == Tally(s, AttemptsOf(id)) + Calls(c, s, events, id)
    decreases |events|
  {
    if events != [] {
      NextCounts(c, s, events[0], id);
      RunCalls(c, Next(c, s, events[0]), events[1..], id);
    }
  }

  /** When at most one element is marked by `g` and `f` vanishes elsewhere, the sum of `f` is at most one term. */
  lemma {:induction false} SumOfOne<T>(s: seq<T>, n: nat, f: T -> nat, g: T -> nat)
    requires forall x | x in s :: f(x) <= n && (g(x) == 0 ==> f(x) == 0)
    requires Sum(s, g) <= 1
    ensures Sum(s, f) <= if Sum(s, g) == 0 then 0 else n
  {
    if s != [] {
      assert s[0] in s;
      SumOfOne(s[1..], n, f, g);
    }
  }

  lemma AttemptsAtMost<P(!new), L>(c: Config, s: State<P, L>, id: nat)
    requires AttemptsBounded(c, s) && Tally(s, Holds(id)) <= 1
    ensures Tally(s, AttemptsOf(id)) <= c.maxAttempts
  {
    var f, g := AttemptsOf<P, L>(id), Holds<P, L>(id);
    SumOfOne(s.pending, c.maxAttempts, AtPending(f), AtPending(g));
    SumOfOne(s.running, c.maxAttempts, AtRunning(f), AtRunning(g));
    SumOfOne(s.timers, c.maxAttempts, AtWaiting(f), AtWaiting(g));
    SumOfOne(s.done, c.maxAttempts, AtDone(f), AtDone(g));
    SumOfOne(s.dead, c.maxAttempts, AtDead(f), AtDead(g));
  }

  /** Over any run no job's handler is called more than `maxAttempts` times. */
  lemma CallsAtMostMaxAttempts<P(!new), L>(c: Config, handlers: map<string, L>, events: seq<Event<P, L>>, id: nat)
    requires c.Valid() && Runs(c, Empty(handlers), events)
    ensures Calls(c, Empty(handlers), events, id) <= c.maxAttempts
  {
    EmptyInv<P, L>(c, handlers);
    RunInv(c, Empty(handlers), events);
    RunCalls(c, Empty(handlers), events, id);
    AttemptsAtMost(c, Final(c, Empty(handlers), events), id);
  }

  // ---- first in, first out ----

  /** The ids of the jobs in the queue that no worker has taken yet, in order. */
  function Untaken<P>(pending: seq<Job<P>>): seq<nat> {
    if pending == [] then []
    else (if pending[0].attempts == 0 then [pending[0].id] else []) + Untaken(pending[1..])
  }

  /** The ids of the jobs that one `pump` takes for the first time, in order. */
  function PumpTakes<P, L>(c: Config, s: State<P, L>): seq<nat>
    decreases |s.pending|
  {
    if s.inflight < c.concurrency && s.pending != [] then
      (if s.pending[0].attempts == 0 then [s.pending[0].id] else []) + PumpTakes(c, StartHead(s))
    else []
  }

  function NextTakes<P, L>(c: Config, s: State<P, L>, e: Event<P, L>): seq<nat>
    requires Enabled(s, e)
  {
    match e
    case Register(_, _) => []
    case Enqueue(kind, payload, now) => PumpTakes(c, Push(s, kind, payload, now))
    case Advance(_, _) => []
    case Settle(k, error) => PumpTakes(c, Unwind(c, s, k, error))
    case Fire(k) => PumpTakes(c, Requeue(s, k))
  }

  /** The ids taken for the first time over a run, in order, after those in `taken`. */
  function Takes<P, L>(c: Config, s: State<P, L>, events: seq<Event<P, L>>, taken: seq<nat>): seq<nat>
    requires Runs(c, s, events)
    decreases |events|
  {
    if events == [] then taken
    else Takes(c, Next(c, s, events[0]), events[1..], taken + NextTakes(c, s, events[0]))
  }

  /** `lo`, `lo + 1`, ... up to, but not including, `hi`. */
  function Ids(lo: nat, hi: nat): (ids: seq<nat>)
    ensures |ids| == if hi <= lo then 0 else hi - lo
    ensures forall i :: 0 <= i < |ids| ==> ids[i] == lo + i
    decreases hi
  {
    if hi <= lo then [] else Ids(lo, hi - 1) + [hi - 1]
  }

  function IfUntaken<P>(j: Job<P>): seq<nat> { if j.attempts == 0 then [j.id] else [] }

  lemma UntakenCons<P>(first: Job<P>, rest: seq<Job<P>>)
    ensures Untaken([first] + rest) == IfUntaken(first) + Untaken(rest)
  {
    assert ([first] + rest)[1..] == rest;
  }

  lemma {:induction false} UntakenPush<P>(pending: seq<Job<P>>, j: Job<P>)
    ensures Untaken(pending + [j]) == Untaken(pending) + IfUntaken(j)
    decreases |pending|
  {
    if pending == [] {
      assert pending + [j] == [j] + [];
      UntakenCons(j, []);
    } else {
      var first, rest := pending[0], pending[1..];
      assert pending == [first] + rest && pending + [j] == [first] + (rest + [j]);
      UntakenPush(rest, j);
      UntakenCons(first, rest);
      UntakenCons(first, rest + [j]);
    }
  }

  lemma {:induction false} PumpFifo<P(!new), L>(c: Config, s: State<P, L>)
    ensures PumpTakes(c, s) + Untaken(Pump(c, s).pending) == Untaken(s.pending)
    decreases |s.pending|
  {
    if s.inflight < c.concurrency && s.pending != [] {
      PumpFifo(c, StartHead(s));
    }
  }

  lemma {:induction false} PumpKeepsIds<P(!new), L>(c: Config, s: State<P, L>)
    ensures Pump(c, s).nextId == s.nextId
    decreases |s.pending|
  {
    if s.inflight < c.concurrency && s.pending != [] {
      PumpKeepsIds(c, StartHead(s));
    }
  }

  /** With `taken` so far, the ids taken and then those waiting are all the ids handed out. */
  predicate InOrder<P, L>(taken: seq<nat>, s: State<P, L>) {
    taken + Untaken(s.pending) == Ids(1, s.nextId)
  }

  lemma Regroup<T>(a: seq<T>, b: seq<T>, c: seq<T>)
    ensures a + b + c == a + (b + c)
  {
  }

  lemma PumpInOrder<P(!new), L>(c: Config, taken: seq<nat>, s: State<P, L>)
    requires InOrder(taken, s)
    ensures InOrder(taken + PumpTakes(c, s), Pump(c, s))
  {
    PumpFifo(c, s);
    PumpKeepsIds(c, s);
    Regroup(taken, PumpTakes(c, s), Untaken(Pump(c, s).pending));
  }

  lemma PushInOrder<P(!new), L>(taken: seq<nat>, s: State<P, L>, kind: string, payload: P, now: int)
    requires InOrder(taken, s) && 1 <= s.nextId
    ensures InOrder(taken, Push(s, kind, payload, now))
  {
    UntakenPush(s.pending, Job(s.nextId, kind, payload, now, 0));
    assert taken + (Untaken(s.pending) + [s.nextId]) == taken + Untaken(s.pending) + [s.nextId];
  }

  lemma RequeueInOrder<P(!new), L>(taken: seq<nat>, s: State<P, L>, k: nat)
    requires InOrder(taken, s) && k < |s.timers| && s.timers[k].attempts >= 1
    ensures InOrder(taken, Requeue(s, k))
  {
    UntakenPush(s.pending, s.timers[k]);
    assert Untaken(s.pending) + [] == Untaken(s.pending);
  }

  lemma NextInOrder<P(!new), L>(c: Config, taken: seq<nat>, s: State<P, L>, e: Event<P, L>)
    requires Inv(c, s) && Enabled(s, e) && InOrder(taken, s)
    ensures InOrder(taken + NextTakes(c, s, e), Next(c, s, e))
  {
    assert taken + [] == taken;
    match e
    case Register(_, _) =>
    case Enqueue(kind, payload, now) =>
      PushInOrder(taken, s, kind, payload, now);
      PumpInOrder(c, taken, Push(s, kind, payload, now));
    case Advance(_, _) =>
    case Settle(k, error) =>
      PumpInOrder(c, taken, Unwind(c, s, k, error));
    case Fire(k) =>
      assert s.timers[k] in s.timers;
      RequeueInOrder(taken, s, k);
      PumpInOrder(c, taken, Requeue(s, k));
  }

  lemma {:induction false} RunInOrder<P(!new), L>(c: Config, taken: seq<nat>, s: State<P, L>, events: seq<Event<P, L>>)
    requires c.Valid() && Inv(c, s) && Runs(c, s, events) && InOrder(taken, s)
    ensures InOrder(Takes(c, s, events, taken), Final(c, s, events))
    decreases |events|
  {
    if events != [] {
      NextInOrder(c, taken, s, events[0]);
      NextInv(c, s, events[0]);
      RunInOrder(c, taken + NextTakes(c, s, events[0]), Next(c, s, events[0]), events[1..]);
    }
  }

  /**
    First in, first out: over any run, retries and re-entrant pumps included, the jobs taken for the
    first time are the first ones enqueued, in that order, and the others wait in that order.
   */
  lemma FirstInFirstOut<P(!new), L>(c: Config, handlers: map<string, L>, events: seq<Event<P, L>>)
    requires c.Valid() && Runs(c, Empty(handlers), events)
    ensures var s := Final(c, Empty(handlers), events);
            Takes(c, Empty(handlers), events, []) + Untaken(s.pending) == Ids(1, s.nextId)
  {
    EmptyInv<P, L>(c, handlers);
    RunInOrder(c, [], Empty(handlers), events);
  }
}
