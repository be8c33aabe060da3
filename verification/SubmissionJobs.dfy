/**
  The submission-judging protocol of src/lib/submission-jobs.ts: any number of
  replicas, each with its own job queue, drive rows of a shared table through
  queued -> judging -> terminal. Each stretch of the handler between two awaits is
  one step and each database call is one atomic step, so a run of `Step` is one
  interleaving of all workers.
 */
module SubmissionJobs {
  import opened Wrappers
  import opened Sums
  import opened QueueSpec
  import opened Verdicts

  type RowId = string

  const JUDGE_SUBMISSION := "judge-submission"

  // ---- the handler ----

  datatype Status = Queued | Judging | Terminal(update: TerminalUpdate)

  /** What a suspended handler is waiting for, or how it is about to settle. */
  datatype Pc =
    | Reading
    | Claiming
    | Executing
    | RollingBack
    | Writing(update: TerminalUpdate)
    | Returning
    | Throwing(error: string)

  datatype Reply =
    | DbDone
    | DbFailed(error: string)
    | Judged(results: seq<CaseResult>, judgeStatus: string)
    | JudgeUnavailable
    | JudgeCrashed(message: Option<string>)

  predicate Awaits(pc: Pc, reply: Reply) {
    match pc
    case Reading => reply.DbDone? || reply.DbFailed?
    case Claiming => reply.DbDone? || reply.DbFailed?
    case RollingBack => reply.DbDone? || reply.DbFailed?
    case Writing(_) => reply.DbDone? || reply.DbFailed?
    case Executing => reply.Judged? || reply.JudgeUnavailable? || reply.JudgeCrashed?
    case _ => false
  }

  /** One atomic step of the handler on its row; `None` is a missing row. */
  function Resume(pc: Pc, row: Option<Status>, reply: Reply): (Pc, Option<Status>)
    requires Awaits(pc, reply)
  {
    if reply.DbFailed? then (Throwing(reply.error), row)
    else
      match pc
      case Reading => (if row == Some(Queued) then Claiming else Returning, row)
      case Claiming => if row == Some(Queued) then (Executing, Some(Judging)) else (Returning, row)
      case Executing =>
        (match reply
         case Judged(results, judgeStatus) => Writing(Judge(results, judgeStatus))
         case JudgeUnavailable => RollingBack
         case JudgeCrashed(message) =>
           Writing(Crash(message)),
         row)
      case RollingBack => (Throwing("Judge unavailable"), if row == Some(Judging) then Some(Queued) else row)
      case Writing(update) =>
        if row.None? then (Throwing("record not found"), row) else (Returning, Some(Terminal(update)))
  }

  /** The handler has claimed the row and has not given it back. */
  predicate HoldsClaim(pc: Pc) {
    pc.Executing? || pc.RollingBack? || pc.Writing?
  }

  // ---- the system ----

  datatype Replica = Replica(config: Config, queue: State<RowId, Pc>)

  /**
    `tracked` remembers the rows for which a job was enqueued while they existed and
    `orphaned` those whose claimant's database call failed after the claim.
   */
  datatype System = System(
    rows: map<RowId, Status>,
    replicas: seq<Replica>,
    tracked: set<RowId>,
    orphaned: set<RowId>)

  datatype Action =
    | Create(row: RowId)
    | Submit(replica: nat, row: RowId, now: int)
    | EnqueueOther(replica: nat, kind: string, payload: RowId, now: int)
    | Handle(replica: nat, call: nat, reply: Reply)
    | Finish(replica: nat, call: nat)
    | SettleOther(replica: nat, call: nat, error: Option<string>)
    | Retry(replica: nat, timer: nat)

  function Lookup(rows: map<RowId, Status>, r: RowId): Option<Status> {
    if r in rows then Some(rows[r]) else None
  }

  predicate IsCall(s: System, i: nat, k: nat) {
    i < |s.replicas| && k < |s.replicas[i].queue.running|
  }

  predicate Can(s: System, a: Action) {
    match a
    case Create(r) => r !in s.rows
    case Submit(i, _, _) => i < |s.replicas|
    case EnqueueOther(i, kind, _, _) => i < |s.replicas| && kind != JUDGE_SUBMISSION
    case Handle(i, k, reply) =>
      IsCall(s, i, k)
      && var call := s.replicas[i].queue.running[k];
         call.job.kind == JUDGE_SUBMISSION && Awaits(call.local, reply)
    case Finish(i, k) =>
      IsCall(s, i, k)
      && var call := s.replicas[i].queue.running[k];
         call.job.kind == JUDGE_SUBMISSION && (call.local.Returning? || call.local.Throwing?)
    case SettleOther(i, k, _) =>
      IsCall(s, i, k) && s.replicas[i].queue.running[k].job.kind != JUDGE_SUBMISSION
    case Retry(i, t) => i < |s.replicas| && t < |s.replicas[i].queue.timers|
  }

  /** One turn of the queue of replica `i`. */
  function Turn(s: System, i: nat, e: Event<RowId, Pc>): System
    requires i < |s.replicas| && Enabled(s.replicas[i].queue, e)
  {
    var rep := s.replicas[i];
    s.(replicas := s.replicas[i := rep.(queue := Next(rep.config, rep.queue, e))])
  }

  function SettlementOf(pc: Pc): Option<string> {
    if pc.Throwing? then Some(pc.error) else None
  }

  function Step(s: System, a: Action): System
    requires Can(s, a)
  {
    match a
    case Create(r) => s.(rows := s.rows[r := Queued])
    case Submit(i, r, now) =>
      var s' := Turn(s, i, Enqueue(JUDGE_SUBMISSION, r, now));
      if r in s.rows then s'.(tracked := s.tracked + {r}) else s'
    case EnqueueOther(i, kind, payload, now) => Turn(s, i, Enqueue(kind, payload, now))
    case Handle(i, k, reply) =>
      var call := s.replicas[i].queue.running[k];
      var r := call.job.payload;
      var (pc, row) := Resume(call.local, Lookup(s.rows, r), reply);
      Turn(s, i, Advance(k, pc))
      .(rows := if row.Some? then s.rows[r := row.value] else s.rows,
        orphaned := if HoldsClaim(call.local) && reply.DbFailed? then s.orphaned + {r} else s.orphaned)
    case Finish(i, k) => Turn(s, i, Settle(k, SettlementOf(s.replicas[i].queue.running[k].local)))
    case SettleOther(i, k, error) => Turn(s, i, Settle(k, error))
    case Retry(i, t) => Turn(s, i, Fire(t))
  }

  predicate Initial(s: System) {
    && s.rows == map[] && s.tracked == {} && s.orphaned == {}
    && forall i :: 0 <= i < |s.replicas| ==>
         s.replicas[i].config.Valid() && Registered(s.replicas[i].queue.handlers)
         && s.replicas[i].queue == Empty(s.replicas[i].queue.handlers)
  }

  /** Importing the module registers the handler. */
  predicate Registered(handlers: map<string, Pc>) {
    JUDGE_SUBMISSION in handlers && handlers[JUDGE_SUBMISSION] == Reading
  }

  // ---- counting jobs across replicas ----

  function OnReplica(f: Place<RowId, Pc> -> nat): Replica -> nat {
    (rep: Replica) => Tally(rep.queue, f)
  }

  function Total(s: System, f: Place<RowId, Pc> -> nat): nat {
    Sum(s.replicas, OnReplica(f))
  }

  predicate JobFor(j: Job<RowId>, r: RowId) {
    j.kind == JUDGE_SUBMISSION && j.payload == r
  }

  /** 1 at a worker that holds the claim on row `r`. */
  function Claimant(r: RowId): Place<RowId, Pc> -> nat {
    (p: Place<RowId, Pc>) =>
      if p.Running? && JobFor(p.call.job, r) && HoldsClaim(p.call.local) then 1 else 0
  }

  /** A place from which a queued row `r` will still be tried, or has been tried to exhaustion. */
  predicate Keeps(p: Place<RowId, Pc>, r: RowId) {
    match p
    case Pending(j) => JobFor(j, r)
    case Running(call) => JobFor(call.job, r) && (call.local.Reading? || call.local.Claiming? || call.local.Throwing?)
    case Waiting(j) => JobFor(j, r)
    case Done(_) => false
    case Dead(letter) => JobFor(letter.job, r) && letter.error.Some?
  }

  function Carrier(r: RowId): Place<RowId, Pc> -> nat {
    (p: Place<RowId, Pc>) => if Keeps(p, r) then 1 else 0
  }

  function Claimants(s: System, r: RowId): nat { Total(s, Claimant(r)) }

  function Carriers(s: System, r: RowId): nat { Total(s, Carrier(r)) }

  ghost predicate ReplicaInv(rep: Replica) {
    rep.config.Valid() && Inv(rep.config, rep.queue) && Registered(rep.queue.handlers)
  }

  /** A row has exactly one claimant while it is judging, unless a database failure took that claimant away. */
  predicate ClaimInv(s: System, r: RowId) {
    Claimants(s, r) == if r in s.rows && s.rows[r] == Judging && r !in s.orphaned then 1 else 0
  }

  /** A queued row that was submitted is kept by some job. */
  predicate KeptInv(s: System, r: RowId) {
    r in s.tracked ==> r in s.rows && (s.rows[r] == Queued ==> Carriers(s, r) >= 1)
  }

  ghost predicate SystemInv(s: System) {
    && (forall rep | rep in s.replicas :: ReplicaInv(rep))
    && (forall r | r in s.orphaned :: r in s.rows && s.rows[r] == Judging)
    && (forall r: RowId :: ClaimInv(s, r))
    && (forall r: RowId :: KeptInv(s, r))
  }

  lemma WeightsPumpNeutral(handlers: map<string, Pc>, r: RowId)
    requires Registered(handlers)
    ensures PumpNeutral(handlers, Claimant(r)) && PumpShrinks(handlers, Claimant(r))
    ensures PumpNeutral(handlers, Carrier(r)) && PumpShrinks(handlers, Carrier(r))
  {
  }

  lemma TurnTotal(s: System, i: nat, e: Event<RowId, Pc>, f: Place<RowId, Pc> -> nat)
    requires i < |s.replicas| && Enabled(s.replicas[i].queue, e)
    ensures Total(Turn(s, i, e), f) + Tally(s.replicas[i].queue, f)
         == Total(s, f) + Tally(Turn(s, i, e).replicas[i].queue, f)
  {
    var rep := s.replicas[i];
    SumUpdate(s.replicas, i, rep.(queue := Next(rep.config, rep.queue, e)), OnReplica(f));
  }

  lemma TurnReplicas(s: System, i: nat, e: Event<RowId, Pc>)
    requires forall rep | rep in s.replicas :: ReplicaInv(rep)
    requires i < |s.replicas| && Enabled(s.replicas[i].queue, e) && !e.Register?
    ensures forall rep | rep in Turn(s, i, e).replicas :: ReplicaInv(rep)
  {
    assert s.replicas[i] in s.replicas;
    NextInv(s.replicas[i].config, s.replicas[i].queue, e);
    forall rep | rep in Turn(s, i, e).replicas ensures ReplicaInv(rep) {
      var j :| 0 <= j < |s.replicas| && Turn(s, i, e).replicas[j] == rep;
      assert s.replicas[j] in s.replicas;
    }
  }

  lemma InitialInv(s: System)
    requires Initial(s)
    ensures SystemInv(s)
  {
    forall rep | rep in s.replicas ensures ReplicaInv(rep) {
      EmptyInv<RowId, Pc>(rep.config, rep.queue.handlers);
    }
    forall r: RowId ensures ClaimInv(s, r) {
      SumZero(s.replicas, OnReplica(Claimant(r)));
    }
  }

  /** How a turn moves weight between the places of its queue. */
  lemma TurnMoves(s: System, i: nat, e: Event<RowId, Pc>, f: Place<RowId, Pc> -> nat)
    requires i < |s.replicas| && Enabled(s.replicas[i].queue, e)
    requires PumpNeutral(s.replicas[i].queue.handlers, f)
    ensures var q := s.replicas[i].queue; var after := Total(Turn(s, i, e), f); var before := Total(s, f);
            match e
            case Register(_, _) => after == before
            case Enqueue(kind, payload, now) => after == before + f(Pending(Job(q.nextId, kind, payload, now, 0)))
            case Advance(k, pc) => after + f(Running(q.running[k])) == before + f(Running(q.running[k].(local := pc)))
            case Settle(k, error) =>
              after + f(Running(q.running[k])) == before + f(Settled(s.replicas[i].config, q.running[k].job, error))
            case Fire(t) => after + f(Waiting(q.timers[t])) == before + f(Pending(q.timers[t]))
  {
    NextTally(s.replicas[i].config, s.replicas[i].queue, e, f);
    TurnTotal(s, i, e, f);
  }

  /** How a turn changes the number of claimants of row `r`. */
  lemma TurnClaimants(s: System, i: nat, e: Event<RowId, Pc>, r: RowId)
    requires i < |s.replicas| && Enabled(s.replicas[i].queue, e) && Registered(s.replicas[i].queue.handlers)
    ensures var q := s.replicas[i].queue; var after := Claimants(Turn(s, i, e), r); var before := Claimants(s, r);
            match e
            case Register(_, _) => after == before
            case Enqueue(_, _, _) => after == before
            case Advance(k, pc) =>
              after + Claimant(r)(Running(q.running[k])) == before + Claimant(r)(Running(q.running[k].(local := pc)))
            case Settle(k, _) => after + Claimant(r)(Running(q.running[k])) == before
            case Fire(_) => after == before
  {
    WeightsPumpNeutral(s.replicas[i].queue.handlers, r);
    TurnMoves(s, i, e, Claimant(r));
  }

  /** And the number of its carriers. */
  lemma TurnCarriers(s: System, i: nat, e: Event<RowId, Pc>, r: RowId)
    requires i < |s.replicas| && Enabled(s.replicas[i].queue, e) && Registered(s.replicas[i].queue.handlers)
    ensures var q := s.replicas[i].queue; var after := Carriers(Turn(s, i, e), r); var before := Carriers(s, r);
            match e
            case Register(_, _) => after == before
            case Enqueue(kind, payload, _) =>
              after == before + if kind == JUDGE_SUBMISSION && payload == r then 1 else 0
            case Advance(k, pc) =>
              after + Carrier(r)(Running(q.running[k])) == before + Carrier(r)(Running(q.running[k].(local := pc)))
            case Settle(k, error) =>
              after + Carrier(r)(Running(q.running[k]))
              == before + Carrier(r)(Settled(s.replicas[i].config, q.running[k].job, error))
            case Fire(_) => after == before
  {
    WeightsPumpNeutral(s.replicas[i].queue.handlers, r);
    TurnMoves(s, i, e, Carrier(r));
  }

  lemma HolderCounted(s: System, i: nat, k: nat, r: RowId)
    requires IsCall(s, i, k)
    requires JobFor(s.replicas[i].queue.running[k].job, r) && HoldsClaim(s.replicas[i].queue.running[k].local)
    ensures Claimants(s, r) >= 1
  {
    var q := s.replicas[i].queue;
    SumAtLeast(q.running, k, AtRunning(Claimant(r)));
    SumAtLeast(s.replicas, i, OnReplica(Claimant(r)));
  }

  function CallOf(s: System, a: Action): Activation<RowId, Pc>
    requires Can(s, a) && a.Handle?
  {
    s.replicas[a.replica].queue.running[a.call]
  }

  function ResumePc(s: System, a: Action): Pc
    requires Can(s, a) && a.Handle?
  {
    Resume(CallOf(s, a).local, Lookup(s.rows, CallOf(s, a).job.payload), a.reply).0
  }

  /** The turn of its replica that a step performs. */
  function EventOf(s: System, a: Action): (e: Event<RowId, Pc>)
    requires Can(s, a) && !a.Create?
    ensures Enabled(s.replicas[a.replica].queue, e) && !e.Register?
    ensures Step(s, a).replicas == Turn(s, a.replica, e).replicas
  {
    match a
    case Submit(_, r, now) => Enqueue(JUDGE_SUBMISSION, r, now)
    case EnqueueOther(_, kind, payload, now) => Enqueue(kind, payload, now)
    case Handle(_, k, _) => Advance(k, ResumePc(s, a))
    case Finish(i, k) => Settle(k, SettlementOf(s.replicas[i].queue.running[k].local))
    case SettleOther(_, k, error) => Settle(k, error)
    case Retry(_, t) => Fire(t)
  }

  lemma HandleCounts(s: System, a: Action, r: RowId)
    requires SystemInv(s) && Can(s, a) && a.Handle?
    ensures var before, after := Running(CallOf(s, a)), Running(CallOf(s, a).(local := ResumePc(s, a)));
            && Claimants(Step(s, a), r) + Claimant(r)(before) == Claimants(s, r) + Claimant(r)(after)
            && Carriers(Step(s, a), r) + Carrier(r)(before) == Carriers(s, r) + Carrier(r)(after)
  {
    var e := EventOf(s, a);
    assert s.replicas[a.replica] in s.replicas;
    TurnClaimants(s, a.replica, e, r);
    TurnCarriers(s, a.replica, e, r);
  }

  /** The row a handler step is about. */
  lemma HandleOwnRow(s: System, a: Action)
    requires SystemInv(s) && Can(s, a) && a.Handle?
    ensures var r := CallOf(s, a).job.payload;
            && ClaimInv(Step(s, a), r) && KeptInv(Step(s, a), r)
            && (r in Step(s, a).orphaned ==> r in Step(s, a).rows && Step(s, a).rows[r] == Judging)
  {
    var r := CallOf(s, a).job.payload;
    assert ClaimInv(s, r) && KeptInv(s, r);
    HandleCounts(s, a, r);
    if HoldsClaim(CallOf(s, a).local) {
      HolderCounted(s, a.replica, a.call, r);
    }
  }

  lemma HandleOtherRow(s: System, a: Action, r: RowId)
    requires SystemInv(s) && Can(s, a) && a.Handle? && r != CallOf(s, a).job.payload
    ensures ClaimInv(Step(s, a), r) && KeptInv(Step(s, a), r)
  {
    assert ClaimInv(s, r) && KeptInv(s, r);
    HandleCounts(s, a, r);
  }

  lemma HandleRows(s: System, a: Action)
    requires SystemInv(s) && Can(s, a) && a.Handle?
    ensures forall r: RowId :: ClaimInv(Step(s, a), r) && KeptInv(Step(s, a), r)
    ensures forall r | r in Step(s, a).orphaned :: r in Step(s, a).rows && Step(s, a).rows[r] == Judging
  {
    HandleOwnRow(s, a);
    forall r: RowId ensures ClaimInv(Step(s, a), r) && KeptInv(Step(s, a), r) {
      if r != CallOf(s, a).job.payload {
        HandleOtherRow(s, a, r);
      }
    }
  }

  /** A handler that is about to settle holds no claim, and a failed one leaves its job where it is kept. */
  lemma SettlingKeeps(c: Config, call: Activation<RowId, Pc>, r: RowId)
    requires call.local.Returning? || call.local.Throwing?
    ensures Claimant(r)(Running(call)) == 0
    ensures Carrier(r)(Running(call)) <= Carrier(r)(Settled(c, call.job, SettlementOf(call.local)))
  {
  }

  lemma FinishRow(s: System, a: Action, r: RowId)
    requires SystemInv(s) && Can(s, a) && a.Finish?
    ensures ClaimInv(Step(s, a), r) && KeptInv(Step(s, a), r)
  {
    var rep := s.replicas[a.replica];
    var call, error := rep.queue.running[a.call], SettlementOf(rep.queue.running[a.call].local);
    assert ClaimInv(s, r) && KeptInv(s, r);
    assert rep in s.replicas;
    TurnClaimants(s, a.replica, Settle(a.call, error), r);
    TurnCarriers(s, a.replica, Settle(a.call, error), r);
    SettlingKeeps(rep.config, call, r);
  }

  lemma FinishRows(s: System, a: Action)
    requires SystemInv(s) && Can(s, a) && a.Finish?
    ensures forall r: RowId :: ClaimInv(Step(s, a), r) && KeptInv(Step(s, a), r)
  {
    forall r: RowId ensures ClaimInv(Step(s, a), r) && KeptInv(Step(s, a), r) {
      FinishRow(s, a, r);
    }
  }

  lemma QueueRows(s: System, a: Action)
    requires SystemInv(s) && Can(s, a) && !a.Handle? && !a.Finish?
    ensures forall r: RowId :: ClaimInv(Step(s, a), r) && KeptInv(Step(s, a), r)
  {
    var s' := Step(s, a);
    forall r: RowId ensures ClaimInv(s', r) && KeptInv(s', r) {
      assert ClaimInv(s, r) && KeptInv(s, r);
      if a.Create? {
        assert Claimants(s', r) == Claimants(s, r) && Carriers(s', r) == Carriers(s, r);
      } else {
        var e := EventOf(s, a);
        assert s.replicas[a.replica] in s.replicas;
        TurnClaimants(s, a.replica, e, r);
        TurnCarriers(s, a.replica, e, r);
        assert Claimants(s', r) == Claimants(Turn(s, a.replica, e), r);
        assert Carriers(s', r) == Carriers(Turn(s, a.replica, e), r);
      }
    }
  }

  lemma StepReplicas(s: System, a: Action)
    requires SystemInv(s) && Can(s, a)
    ensures forall rep | rep in Step(s, a).replicas :: ReplicaInv(rep)
  {
    match a
    case Create(_) =>
    case Submit(i, r, now) => TurnReplicas(s, i, Enqueue(JUDGE_SUBMISSION, r, now));
    case EnqueueOther(i, kind, payload, now) => TurnReplicas(s, i, Enqueue(kind, payload, now));
    case Handle(i, k, reply) =>
      var call := s.replicas[i].queue.running[k];
      TurnReplicas(s, i, Advance(k, Resume(call.local, Lookup(s.rows, call.job.payload), reply).0));
    case Finish(i, k) => TurnReplicas(s, i, Settle(k, SettlementOf(s.replicas[i].queue.running[k].local)));
    case SettleOther(i, k, error) => TurnReplicas(s, i, Settle(k, error));
    case Retry(i, t) => TurnReplicas(s, i, Fire(t));
  }

  /** Every step of every worker keeps the invariant. */
  lemma StepInv(s: System, a: Action)
    requires SystemInv(s) && Can(s, a)
    ensures SystemInv(Step(s, a))
  {
    StepReplicas(s, a);
    if a.Handle? {
      HandleRows(s, a);
    } else if a.Finish? {
      FinishRows(s, a);
    } else {
      QueueRows(s, a);
    }
  }

  // ---- runs ----

  predicate Runs(s: System, actions: seq<Action>)
    decreases |actions|
  {
    actions == [] || (Can(s, actions[0]) && Runs(Step(s, actions[0]), actions[1..]))
  }

  function After(s: System, actions: seq<Action>): System
    requires Runs(s, actions)
    decreases |actions|
  {
    if actions == [] then s else After(Step(s, actions[0]), actions[1..])
  }

  lemma {:induction false} RunInv(s: System, actions: seq<Action>)
    requires SystemInv(s) && Runs(s, actions)
    ensures SystemInv(After(s, actions))
    decreases |actions|
  {
    if actions != [] {
      StepInv(s, actions[0]);
      RunInv(Step(s, actions[0]), actions[1..]);
    }
  }

  // ---- no submission is lost ----

  /** Some job on this replica will still try row `r`, or has failed it `maxAttempts` times. */
  ghost predicate KeptBy(rep: Replica, r: RowId) {
    || (exists j :: j in rep.queue.pending && JobFor(j, r))
    || (exists j :: j in rep.queue.timers && JobFor(j, r))
    || (exists call :: call in rep.queue.running && JobFor(call.job, r)
                       && (call.local.Reading? || call.local.Claiming? || call.local.Throwing?))
    || (exists letter :: letter in rep.queue.dead && JobFor(letter.job, r)
                         && letter.error.Some? && letter.job.attempts == rep.config.maxAttempts)
  }

  predicate ClaimedBy(s: System, i: nat, k: nat, r: RowId) {
    IsCall(s, i, k)
    && var call := s.replicas[i].queue.running[k];
       JobFor(call.job, r) && HoldsClaim(call.local)
  }

  lemma KeptSomewhere(s: System, r: RowId) returns (i: nat)
    requires SystemInv(s) && Carriers(s, r) >= 1
    ensures i < |s.replicas| && KeptBy(s.replicas[i], r)
  {
    var f := Carrier(r);
    i := SumWitness(s.replicas, OnReplica(f));
    var rep := s.replicas[i];
    var q := rep.queue;
    assert ReplicaInv(rep);
    if Sum(q.pending, AtPending(f)) > 0 {
      var n := SumWitness(q.pending, AtPending(f));
      assert q.pending[n] in q.pending && JobFor(q.pending[n], r);
    } else if Sum(q.running, AtRunning(f)) > 0 {
      var n := SumWitness(q.running, AtRunning(f));
      assert q.running[n] in q.running && JobFor(q.running[n].job, r);
    } else if Sum(q.timers, AtWaiting(f)) > 0 {
      var n := SumWitness(q.timers, AtWaiting(f));
      assert q.timers[n] in q.timers && JobFor(q.timers[n], r);
    } else {
      SumZero(q.done, AtDone(f));
      var n := SumWitness(q.dead, AtDead(f));
      assert q.dead[n] in q.dead && JobFor(q.dead[n].job, r);
    }
  }

  lemma ClaimantSomewhere(s: System, r: RowId) returns (i: nat, k: nat)
    requires Claimants(s, r) >= 1
    ensures ClaimedBy(s, i, k, r)
  {
    var f := Claimant(r);
    i := SumWitness(s.replicas, OnReplica(f));
    var q := s.replicas[i].queue;
    SumZero(q.pending, AtPending(f));
    SumZero(q.timers, AtWaiting(f));
    SumZero(q.done, AtDone(f));
    SumZero(q.dead, AtDead(f));
    k := SumWitness(q.running, AtRunning(f));
  }

  /**
    In every interleaving: a submitted row is terminal, or queued and kept by some job, or
    judging; and a judging row has its claimant in flight exactly when no database call of
    its claimant failed after the claim.
   */
  lemma NoSubmissionLost(s0: System, actions: seq<Action>, r: RowId)
    requires Initial(s0) && Runs(s0, actions)
    ensures var s := After(s0, actions);
            && (r in s.tracked ==>
                  && r in s.rows
                  && (s.rows[r] == Queued ==> exists i :: 0 <= i < |s.replicas| && KeptBy(s.replicas[i], r)))
            && (r in s.rows && s.rows[r] == Judging ==>
                  (r !in s.orphaned <==> exists i: nat, k: nat :: ClaimedBy(s, i, k, r)))
  {
    InitialInv(s0);
    RunInv(s0, actions);
    var s := After(s0, actions);
    assert ClaimInv(s, r) && KeptInv(s, r);
    if r in s.tracked && s.rows[r] == Queued {
      var i := KeptSomewhere(s, r);
    }
    if r in s.rows && s.rows[r] == Judging {
      if r !in s.orphaned {
        var i, k := ClaimantSomewhere(s, r);
      } else if i: nat, k: nat :| ClaimedBy(s, i, k, r) {
        HolderCounted(s, i, k, r);
        assert false;
      }
    }
  }

  lemma {:induction false} SumTwo<T>(s: seq<T>, i: nat, j: nat, f: T -> nat)
    requires i < j < |s|
    ensures f(s[i]) + f(s[j]) <= Sum(s, f)
  {
    SumSplit(s, i, f);
    SumAtLeast(s[i + 1..], j - i - 1, f);
  }

  /** At most one worker, over all replicas, holds the claim on a row. */
  lemma SingleClaimant(s: System, r: RowId, i: nat, k: nat, i': nat, k': nat)
    requires SystemInv(s) && ClaimedBy(s, i, k, r) && ClaimedBy(s, i', k', r)
    ensures i == i' && k == k'
  {
    assert ClaimInv(s, r);
    var f := Claimant(r);
    SumAtLeast(s.replicas[i].queue.running, k, AtRunning(f));
    SumAtLeast(s.replicas[i'].queue.running, k', AtRunning(f));
    if i != i' {
      SumTwo(s.replicas, if i < i' then i else i', if i < i' then i' else i, OnReplica(f));
    } else if k != k' {
      SumTwo(s.replicas[i].queue.running, if k < k' then k else k', if k < k' then k' else k, AtRunning(f));
      SumAtLeast(s.replicas, i, OnReplica(f));
    }
  }

  // ---- terminal rows ----

  predicate IsTerminal(s: System, r: RowId) {
    r in s.rows && s.rows[r].Terminal?
  }

  predicate IsTerminalWrite(s: System, a: Action, r: RowId) {
    Can(s, a) && a.Handle? && CallOf(s, a).job.payload == r
    && CallOf(s, a).local.Writing? && a.reply.DbDone? && r in s.rows
  }

  function TerminalWrites(s: System, actions: seq<Action>, r: RowId): nat
    requires Runs(s, actions)
    decreases |actions|
  {
    if actions == [] then 0
    else (if IsTerminalWrite(s, actions[0], r) then 1 else 0) + TerminalWrites(Step(s, actions[0]), actions[1..], r)
  }

  /** The unconditional terminal write only ever meets a judging row, so terminal rows never change. */
  lemma StepTerminal(s: System, a: Action, r: RowId)
    requires SystemInv(s) && Can(s, a)
    ensures IsTerminal(s, r) ==>
              IsTerminal(Step(s, a), r) && Step(s, a).rows[r] == s.rows[r] && !IsTerminalWrite(s, a, r)
    ensures !IsTerminal(s, r) ==> (IsTerminal(Step(s, a), r) <==> IsTerminalWrite(s, a, r))
  {
    assert ClaimInv(s, r);
    if a.Handle? && CallOf(s, a).job.payload == r && HoldsClaim(CallOf(s, a).local) {
      HolderCounted(s, a.replica, a.call, r);
    }
  }

  /** Over any run a row gets at most one terminal write, and exactly one if the run makes it terminal. */
  lemma {:induction false} OneTerminalWrite(s: System, actions: seq<Action>, r: RowId)
    requires SystemInv(s) && Runs(s, actions)
    ensures IsTerminal(s, r) ==> IsTerminal(After(s, actions), r) && After(s, actions).rows[r] == s.rows[r]
    ensures TerminalWrites(s, actions, r) == if IsTerminal(After(s, actions), r) && !IsTerminal(s, r) then 1 else 0
    decreases |actions|
  {
    if actions != [] {
      StepTerminal(s, actions[0], r);
      StepInv(s, actions[0]);
      OneTerminalWrite(Step(s, actions[0]), actions[1..], r);
    }
  }

  /** A database call of the claimant of `r` fails. */
  predicate LosesRow(s: System, a: Action, r: RowId) {
    Can(s, a) && a.Handle? && CallOf(s, a).job.payload == r && HoldsClaim(CallOf(s, a).local) && a.reply.DbFailed?
  }

  function Losses(s: System, actions: seq<Action>, r: RowId): nat
    requires Runs(s, actions)
    decreases |actions|
  {
    if actions == [] then 0
    else (if LosesRow(s, actions[0], r) then 1 else 0) + Losses(Step(s, actions[0]), actions[1..], r)
  }

  lemma StepLosses(s: System, a: Action, r: RowId)
    requires SystemInv(s) && Can(s, a)
    ensures r in s.orphaned ==> !LosesRow(s, a, r)
    ensures r in Step(s, a).orphaned <==> r in s.orphaned || LosesRow(s, a, r)
  {
    assert ClaimInv(s, r);
    if LosesRow(s, a, r) {
      HolderCounted(s, a.replica, a.call, r);
    }
  }

  /** A run orphans a row exactly when some claimant's database call on it fails, which happens at most once. */
  lemma {:induction false} OrphanedByOneFailure(s: System, actions: seq<Action>, r: RowId)
    requires SystemInv(s) && Runs(s, actions)
    ensures r in s.orphaned ==> r in After(s, actions).orphaned
    ensures Losses(s, actions, r) == if r in After(s, actions).orphaned && r !in s.orphaned then 1 else 0
    decreases |actions|
  {
    if actions != [] {
      StepLosses(s, actions[0], r);
      StepInv(s, actions[0]);
      OrphanedByOneFailure(Step(s, actions[0]), actions[1..], r);
    }
  }

  /** A row orphaned by a database failure after the claim stays judging for ever: nothing picks it up again. */
  lemma {:induction false} OrphanStaysJudging(s: System, actions: seq<Action>, r: RowId)
    requires SystemInv(s) && Runs(s, actions) && r in s.orphaned
    ensures r in After(s, actions).orphaned && Lookup(After(s, actions).rows, r) == Some(Judging)
    decreases |actions|
  {
    if actions != [] {
      StepInv(s, actions[0]);
      OrphanStaysJudging(Step(s, actions[0]), actions[1..], r);
    }
  }

  /**
    The row of any claimant whose rollback or terminal write fails is lost: whatever happens
    afterwards it stays judging, although the queue retries the job.
   */
  lemma FailureAfterClaimLosesRow(s: System, i: nat, k: nat, r: RowId, error: string, later: seq<Action>)
    requires SystemInv(s) && ClaimedBy(s, i, k, r) && !s.replicas[i].queue.running[k].local.Executing?
    requires Runs(s, [Handle(i, k, DbFailed(error))] + later)
    ensures Lookup(After(s, [Handle(i, k, DbFailed(error))] + later).rows, r) == Some(Judging)
  {
    var a := Handle(i, k, DbFailed(error));
    assert ([a] + later)[1..] == later;
    StepInv(s, a);
    OrphanStaysJudging(Step(s, a), later, r);
  }

  /** A fresh row is submitted and claimed, and the judge answers. */
  function UpToAnswer(r: RowId, reply: Reply): seq<Action> {
    [Create(r), Submit(0, r, 0), Handle(0, 0, DbDone), Handle(0, 0, DbDone), Handle(0, 0, reply)]
  }

  /** The first replica runs nothing but one call for `r`, suspended at `pc`. */
  predicate Serves(s: System, r: RowId, pc: Pc) {
    && |s.replicas| >= 1 && |s.replicas[0].queue.running| == 1
    && JobFor(s.replicas[0].queue.running[0].job, r) && s.replicas[0].queue.running[0].local == pc
  }

  lemma SubmitServes(s: System, r: RowId)
    requires |s.replicas| >= 1 && s.replicas[0].config.Valid() && Registered(s.replicas[0].queue.handlers)
    requires s.replicas[0].queue == Empty(s.replicas[0].queue.handlers)
    ensures Can(s, Submit(0, r, 0)) && Serves(Step(s, Submit(0, r, 0)), r, Reading)
    ensures Step(s, Submit(0, r, 0)).rows == s.rows && Step(s, Submit(0, r, 0)).orphaned == s.orphaned
  {
    var c, q := s.replicas[0].config, Push(s.replicas[0].queue, JUDGE_SUBMISSION, r, 0);
    assert Pump(c, q) == Pump(c, StartHead(q));
    assert Pump(c, StartHead(q)) == StartHead(q);
  }

  lemma HandleServes(s: System, r: RowId, pc: Pc, reply: Reply)
    requires Serves(s, r, pc) && Awaits(pc, reply)
    ensures Can(s, Handle(0, 0, reply))
    ensures var s' := Step(s, Handle(0, 0, reply)); var (pc', row') := Resume(pc, Lookup(s.rows, r), reply);
            && Serves(s', r, pc') && (row'.Some? ==> Lookup(s'.rows, r) == row')
            && (r in s'.orphaned <==> r in s.orphaned || (HoldsClaim(pc) && reply.DbFailed?))
  {
  }

  lemma RunStep(s: System, a: Action, rest: seq<Action>)
    requires Can(s, a) && Runs(Step(s, a), rest)
    ensures Runs(s, [a] + rest) && After(s, [a] + rest) == After(Step(s, a), rest)
  {
    assert ([a] + rest)[1..] == rest;
  }

  /** From any start the judge's answer, whatever it is, can find the claimant about to write or to roll back. */
  lemma AnswerReached(s0: System, r: RowId, reply: Reply) returns (s: System)
    requires Initial(s0) && |s0.replicas| >= 1 && Awaits(Executing, reply)
    ensures Runs(s0, UpToAnswer(r, reply)) && After(s0, UpToAnswer(r, reply)) == s
    ensures Serves(s, r, Resume(Executing, Some(Judging), reply).0) && Lookup(s.rows, r) == Some(Judging)
    ensures r !in s.orphaned
  {
    var s1 := Step(s0, Create(r));
    SubmitServes(s1, r);
    var s2 := Step(s1, Submit(0, r, 0));
    HandleServes(s2, r, Reading, DbDone);
    var s3 := Step(s2, Handle(0, 0, DbDone));
    HandleServes(s3, r, Claiming, DbDone);
    var s4 := Step(s3, Handle(0, 0, DbDone));
    HandleServes(s4, r, Executing, reply);
    s := Step(s4, Handle(0, 0, reply));
    assert Runs(s, []) && After(s, []) == s;
    RunStep(s4, Handle(0, 0, reply), []);
    RunStep(s3, Handle(0, 0, DbDone), [Handle(0, 0, reply)]);
    RunStep(s2, Handle(0, 0, DbDone), [Handle(0, 0, DbDone), Handle(0, 0, reply)]);
    RunStep(s1, Submit(0, r, 0), [Handle(0, 0, DbDone), Handle(0, 0, DbDone), Handle(0, 0, reply)]);
    RunStep(s0, Create(r), UpToAnswer(r, reply)[1..]);
  }

  lemma {:induction false} RunsAppend(s: System, a: seq<Action>, b: seq<Action>)
    requires Runs(s, a)
    ensures Runs(s, a + b) <==> Runs(After(s, a), b)
    ensures Runs(s, a + b) ==> After(s, a + b) == After(After(s, a), b)
    decreases |a|
  {
    if a == [] {
      assert a + b == b;
    } else {
      assert (a + b)[1..] == a[1..] + b;
      RunsAppend(Step(s, a[0]), a[1..], b);
    }
  }

  /**
    From any start, for any row and whatever the judge answers: if the database call that follows
    the answer fails, the row is judging after every continuation.
   */
  lemma FailureLosesRowFromStart(s0: System, r: RowId, reply: Reply, error: string, later: seq<Action>)
    requires Initial(s0) && |s0.replicas| >= 1 && Awaits(Executing, reply)
    ensures Runs(s0, UpToAnswer(r, reply) + [Handle(0, 0, DbFailed(error))])
    ensures var run := UpToAnswer(r, reply) + ([Handle(0, 0, DbFailed(error))] + later);
            Runs(s0, run) ==> Lookup(After(s0, run).rows, r) == Some(Judging)
  {
    var s := AnswerReached(s0, r, reply);
    InitialInv(s0);
    RunInv(s0, UpToAnswer(r, reply));
    var pc := Resume(Executing, Some(Judging), reply).0;
    HandleServes(s, r, pc, DbFailed(error));
    assert Runs(Step(s, Handle(0, 0, DbFailed(error))), []);
    RunStep(s, Handle(0, 0, DbFailed(error)), []);
    assert [Handle(0, 0, DbFailed(error))] + [] == [Handle(0, 0, DbFailed(error))];
    RunsAppend(s0, UpToAnswer(r, reply), [Handle(0, 0, DbFailed(error))]);
    RunsAppend(s0, UpToAnswer(r, reply), [Handle(0, 0, DbFailed(error))] + later);
    if Runs(s, [Handle(0, 0, DbFailed(error))] + later) {
      FailureAfterClaimLosesRow(s, 0, 0, r, error, later);
    }
  }

  // ---- termination ----

  /** Steps of workers and timers, as opposed to new work arriving. */
  predicate IsProgress(a: Action) {
    a.Handle? || a.Finish? || a.SettleOther? || a.Retry?
  }

  function Rank(pc: Pc): nat {
    match pc
    case Reading => 4
    case Claiming => 3
    case Executing => 2
    case RollingBack => 1
    case Writing(_) => 1
    case Returning => 0
    case Throwing(_) => 0
  }

  /** Steps a job can still cause from where it is. */
  function StepsLeft(c: Config): Place<RowId, Pc> -> nat {
    (p: Place<RowId, Pc>) =>
      var left := if p.Occupant().attempts <= c.maxAttempts then c.maxAttempts - p.Occupant().attempts else 0;
      match p
      case Pending(_) => if left == 0 then 5 else 6 * left - 1
      case Running(call) => 6 * left + 1 + if call.job.kind == JUDGE_SUBMISSION then Rank(call.local) else 0
      case Waiting(_) => 6 * left
      case Done(_) => 0
      case Dead(_) => 0
  }

  function OnReplicaWork(): Replica -> nat {
    (rep: Replica) => Tally(rep.queue, StepsLeft(rep.config))
  }

  function Work(s: System): nat {
    Sum(s.replicas, OnReplicaWork())
  }

  lemma StepsLeftPumpShrinks(c: Config, handlers: map<string, Pc>)
    requires Registered(handlers)
    ensures PumpShrinks(handlers, StepsLeft(c))
  {
  }

  /** The job a turn is about has fewer steps left in its new place. */
  predicate JobShrinks(rep: Replica, e: Event<RowId, Pc>)
    requires Enabled(rep.queue, e)
  {
    var q, left := rep.queue, StepsLeft(rep.config);
    match e
    case Advance(k, pc) => left(Running(q.running[k].(local := pc))) < left(Running(q.running[k]))
    case Settle(k, error) => left(Settled(rep.config, q.running[k].job, error)) < left(Running(q.running[k]))
    case Fire(t) => left(Pending(q.timers[t])) < left(Waiting(q.timers[t]))
    case _ => false
  }

  lemma ProgressShrinksJob(rep: Replica, e: Event<RowId, Pc>)
    requires ReplicaInv(rep) && Enabled(rep.queue, e) && !e.Enqueue? && !e.Register?
    requires e.Advance? ==> rep.queue.running[e.call].job.kind == JUDGE_SUBMISSION
                            && Rank(e.local) < Rank(rep.queue.running[e.call].local)
    ensures JobShrinks(rep, e)
  {
    assert e.Settle? ==> rep.queue.running[e.call] in rep.queue.running;
    assert e.Fire? ==> rep.queue.timers[e.timer] in rep.queue.timers;
  }

  lemma TurnShrinks(rep: Replica, e: Event<RowId, Pc>)
    requires ReplicaInv(rep) && Enabled(rep.queue, e) && JobShrinks(rep, e)
    ensures Tally(Next(rep.config, rep.queue, e), StepsLeft(rep.config)) < Tally(rep.queue, StepsLeft(rep.config))
  {
    StepsLeftPumpShrinks(rep.config, rep.queue.handlers);
    NextTally(rep.config, rep.queue, e, StepsLeft(rep.config));
  }

  lemma StepShrinks(s: System, a: Action)
    requires SystemInv(s) && Can(s, a) && IsProgress(a)
    ensures Work(Step(s, a)) < Work(s)
  {
    var rep := s.replicas[a.replica];
    var e := EventOf(s, a);
    assert rep in s.replicas;
    ProgressShrinksJob(rep, e);
    TurnShrinks(rep, e);
    var rep' := rep.(queue := Next(rep.config, rep.queue, e));
    assert Step(s, a).replicas == s.replicas[a.replica := rep'];
    SumUpdate(s.replicas, a.replica, rep', OnReplicaWork());
  }

  /** Once no new work arrives, every interleaving is finite. */
  lemma {:induction false} Termination(s: System, actions: seq<Action>)
    requires SystemInv(s) && Runs(s, actions)
    requires forall a | a in actions :: IsProgress(a)
    ensures |actions| + Work(After(s, actions)) <= Work(s)
    decreases |actions|
  {
    if actions != [] {
      StepShrinks(s, actions[0]);
      StepInv(s, actions[0]);
      Termination(Step(s, actions[0]), actions[1..]);
    }
  }

  predicate Quiescent(s: System) {
    forall i :: 0 <= i < |s.replicas| ==> Drained(s.replicas[i].queue)
  }

  lemma DrainedOrStep(s: System, i: nat) returns (a: Action)
    requires SystemInv(s) && i < |s.replicas| && !Drained(s.replicas[i].queue)
    ensures Can(s, a) && IsProgress(a)
  {
    var q := s.replicas[i].queue;
    assert s.replicas[i] in s.replicas;
    if q.running != [] {
      var call := q.running[0];
      if call.job.kind != JUDGE_SUBMISSION {
        a := SettleOther(i, 0, None);
      } else if call.local.Returning? || call.local.Throwing? {
        a := Finish(i, 0);
      } else if call.local.Executing? {
        a := Handle(i, 0, JudgeUnavailable);
      } else {
        a := Handle(i, 0, DbDone);
      }
    } else {
      a := Retry(i, 0);
    }
  }

  lemma DrainedReplicas(s: System)
    requires SystemInv(s) && Quiescent(s)
    ensures forall i :: 0 <= i < |s.replicas| ==>
              var q := s.replicas[i].queue; q.pending == [] && q.running == [] && q.timers == []
  {
    forall i | 0 <= i < |s.replicas|
      ensures var q := s.replicas[i].queue; q.pending == [] && q.running == [] && q.timers == []
    {
      assert s.replicas[i] in s.replicas && Drained(s.replicas[i].queue);
    }
  }

  /** No deadlock: the workers are stuck exactly when every queue has drained. */
  lemma StuckIffQuiescent(s: System)
    requires SystemInv(s)
    ensures Quiescent(s) <==> forall a: Action | IsProgress(a) :: !Can(s, a)
  {
    if Quiescent(s) {
      DrainedReplicas(s);
    } else {
      var i :| 0 <= i < |s.replicas| && !Drained(s.replicas[i].queue);
      var a := DrainedOrStep(s, i);
    }
  }

  predicate Exhausted(rep: Replica, letter: DeadLetter<RowId>, r: RowId) {
    letter in rep.queue.dead && JobFor(letter.job, r) && letter.job.attempts == rep.config.maxAttempts
  }

  /**
    How a drained system leaves every submitted row: terminal, by its only terminal write; or
    queued with a job dead-lettered after exactly `maxAttempts` tries; or judging because a
    database call failed after the claim.
   */
  lemma QuiescentOutcome(s0: System, actions: seq<Action>, r: RowId)
    requires Initial(s0) && Runs(s0, actions)
    requires Quiescent(After(s0, actions)) && r in After(s0, actions).tracked
    ensures var s := After(s0, actions);
            && r in s.rows
            && (s.rows[r].Terminal? ==> TerminalWrites(s0, actions, r) == 1)
            && (s.rows[r] == Judging <==> r in s.orphaned)
            && (s.rows[r] == Queued ==>
                  exists i, letter :: 0 <= i < |s.replicas| && Exhausted(s.replicas[i], letter, r))
  {
    InitialInv(s0);
    RunInv(s0, actions);
    OneTerminalWrite(s0, actions, r);
    var s := After(s0, actions);
    DrainedReplicas(s);
    assert ClaimInv(s, r) && KeptInv(s, r);
    if s.rows[r] == Judging && r !in s.orphaned {
      var i, k := ClaimantSomewhere(s, r);
      assert false;
    }
    if s.rows[r] == Queued {
      var i := KeptSomewhere(s, r);
      var letter :| letter in s.replicas[i].queue.dead && JobFor(letter.job, r)
                    && letter.error.Some? && letter.job.attempts == s.replicas[i].config.maxAttempts;
      assert Exhausted(s.replicas[i], letter, r);
    }
  }
}
