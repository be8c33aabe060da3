/**
  What is stored for a submission: over every run the terminal update of a row reports the
  answer the judge gave to the row's claimant.
 */
module SubmissionAnswers {
  import opened Wrappers
  import opened QueueSpec
  import opened QueueJobs
  import opened Verdicts
  import opened SubmissionJobs

  /** The update that an answer of the judge calls for. */
  ghost predicate StoredFor(update: TerminalUpdate, reply: Reply) {
    match reply
    case Judged(results, judgeStatus) => Reports(update, results, judgeStatus)
    case JudgeCrashed(message) =>
      && update.verdict == RuntimeError && update.runtime.None? && update.output.None?
      && update.error == Some(if message.Some? then message.value else "Internal judging error")
    case _ => false
  }

  /** After the actions `before`, action `a` gives this answer to the call that executes row `r`. */
  ghost predicate AnsweredAt(s0: System, before: seq<Action>, a: Action, r: RowId, update: TerminalUpdate) {
    && Runs(s0, before)
    && var s := After(s0, before);
       && Can(s, a) && a.Handle?
       && JobFor(CallOf(s, a).job, r) && CallOf(s, a).local.Executing?
       && StoredFor(update, a.reply)
  }

  /** Some action of the run was an answer that calls for this update of row `r`. */
  ghost predicate WasAnswered(s0: System, actions: seq<Action>, r: RowId, update: TerminalUpdate) {
    exists n: nat :: n < |actions| && AnsweredAt(s0, actions[..n], actions[n], r, update)
  }

  /** Every update that is stored or about to be was called for. */
  ghost predicate Answered(s: System, s0: System, actions: seq<Action>) {
    && (forall i: nat, k: nat | IsCall(s, i, k) :: CallAnswered(s.replicas[i].queue.running[k], s0, actions))
    && (forall r | r in s.rows && s.rows[r].Terminal? :: WasAnswered(s0, actions, r, s.rows[r].update))
  }

  ghost predicate CallAnswered(call: Activation<RowId, Pc>, s0: System, actions: seq<Action>) {
    call.job.kind == JUDGE_SUBMISSION && call.local.Writing? ==>
      WasAnswered(s0, actions, call.job.payload, call.local.update)
  }

  lemma StaysAnswered(s0: System, actions: seq<Action>, a: Action, r: RowId, update: TerminalUpdate)
    requires WasAnswered(s0, actions, r, update)
    ensures WasAnswered(s0, actions + [a], r, update)
  {
    var n: nat :| n < |actions| && AnsweredAt(s0, actions[..n], actions[n], r, update);
    var more := actions + [a];
    assert more[..n] == actions[..n] && more[n] == actions[n];
  }

  /** A turn leaves calls as they were, starts judging calls at `Reading`, or advances one. */
  lemma TurnCalls(rep: Replica, e: Event<RowId, Pc>, call: Activation<RowId, Pc>)
    requires ReplicaInv(rep) && Enabled(rep.queue, e) && !e.Register?
    requires call in Next(rep.config, rep.queue, e).running && call.job.kind == JUDGE_SUBMISSION
    ensures || call in rep.queue.running
            || call.local == Reading
            || (e.Advance? && call == rep.queue.running[e.call].(local := e.local))
  {
    var q := rep.queue;
    match e
    case Enqueue(kind, payload, now) => PumpOrigins(rep.config, Push(q, kind, payload, now));
    case Advance(k, local) =>
      var n :| 0 <= n < |Next(rep.config, q, e).running| && Next(rep.config, q, e).running[n] == call;
      assert n != k ==> q.running[n] == call;
    case Settle(k, error) =>
      PumpOrigins(rep.config, Unwind(rep.config, q, k, error));
      assert forall x | x in Without(q.running, k) :: x in q.running;
    case Fire(k) => PumpOrigins(rep.config, Requeue(q, k));
  }

  /** The judging calls after a step: those before it, new ones at `Reading`, and the one the step resumed. */
  lemma StepCalls(s: System, a: Action, i: nat, k: nat)
    requires SystemInv(s) && Can(s, a) && IsCall(Step(s, a), i, k)
    requires Step(s, a).replicas[i].queue.running[k].job.kind == JUDGE_SUBMISSION
    ensures var call := Step(s, a).replicas[i].queue.running[k];
            || (exists m: nat :: IsCall(s, i, m) && s.replicas[i].queue.running[m] == call)
            || call.local == Reading
            || (a.Handle? && call == CallOf(s, a).(local := ResumePc(s, a)))
  {
    var call := Step(s, a).replicas[i].queue.running[k];
    var rep, rep' := s.replicas[i], Step(s, a).replicas[i];
    assert rep in s.replicas;
    if rep' == rep {
      assert IsCall(s, i, k) && s.replicas[i].queue.running[k] == call;
    } else {
      var e := EventOf(s, a);
      TurnCalls(rep, e, call);
      if call in rep.queue.running {
        var m :| 0 <= m < |rep.queue.running| && rep.queue.running[m] == call;
        assert IsCall(s, i, m);
      }
    }
  }

  /** The step that resumes a call towards writing is the judge's answer. */
  lemma ResumedAnswered(s0: System, actions: seq<Action>, s: System, a: Action)
    requires Runs(s0, actions) && After(s0, actions) == s && Answered(s, s0, actions)
    requires Can(s, a) && a.Handle? && ResumePc(s, a).Writing?
    ensures WasAnswered(s0, actions + [a], CallOf(s, a).job.payload, ResumePc(s, a).update)
  {
    var call, more := CallOf(s, a), actions + [a];
    if a.reply.Judged? {
      JudgeReports(a.reply.results, a.reply.judgeStatus);
    }
    assert more[..|actions|] == actions && more[|actions|] == a;
    assert AnsweredAt(s0, more[..|actions|], more[|actions|], call.job.payload, ResumePc(s, a).update);
  }

  lemma StepAnswered(s0: System, actions: seq<Action>, s: System, a: Action)
    requires Runs(s0, actions) && After(s0, actions) == s && Answered(s, s0, actions)
    requires SystemInv(s) && Can(s, a)
    ensures Answered(Step(s, a), s0, actions + [a])
  {
    var s', more := Step(s, a), actions + [a];
    forall i: nat, k: nat | IsCall(s', i, k) ensures CallAnswered(s'.replicas[i].queue.running[k], s0, more) {
      CallStaysAnswered(s0, actions, s, a, i, k);
    }
    forall r | r in s'.rows && s'.rows[r].Terminal? ensures WasAnswered(s0, more, r, s'.rows[r].update) {
      RowStaysAnswered(s0, actions, s, a, r);
    }
  }

  lemma CallStaysAnswered(s0: System, actions: seq<Action>, s: System, a: Action, i: nat, k: nat)
    requires Runs(s0, actions) && After(s0, actions) == s && Answered(s, s0, actions)
    requires SystemInv(s) && Can(s, a) && IsCall(Step(s, a), i, k)
    ensures CallAnswered(Step(s, a).replicas[i].queue.running[k], s0, actions + [a])
  {
    var call := Step(s, a).replicas[i].queue.running[k];
    if call.job.kind == JUDGE_SUBMISSION && call.local.Writing? {
      StepCalls(s, a, i, k);
      if m: nat :| IsCall(s, i, m) && s.replicas[i].queue.running[m] == call {
        assert CallAnswered(s.replicas[i].queue.running[m], s0, actions);
        StaysAnswered(s0, actions, a, call.job.payload, call.local.update);
      } else {
        ResumedAnswered(s0, actions, s, a);
      }
    }
  }

  lemma RowStaysAnswered(s0: System, actions: seq<Action>, s: System, a: Action, r: RowId)
    requires Runs(s0, actions) && After(s0, actions) == s && Answered(s, s0, actions)
    requires Can(s, a) && r in Step(s, a).rows && Step(s, a).rows[r].Terminal?
    ensures WasAnswered(s0, actions + [a], r, Step(s, a).rows[r].update)
  {
    var status := Step(s, a).rows[r];
    if r in s.rows && s.rows[r] == status {
      StaysAnswered(s0, actions, a, r, status.update);
    } else {
      var call := CallOf(s, a);
      assert call.local.Writing? && call.local.update == status.update && call.job.payload == r;
      assert CallAnswered(s.replicas[a.replica].queue.running[a.call], s0, actions);
      StaysAnswered(s0, actions, a, r, status.update);
    }
  }

  lemma {:induction false} RunsPrefix(s: System, a: seq<Action>, b: seq<Action>)
    requires Runs(s, a + b)
    ensures Runs(s, a)
    decreases |a|
  {
    if a != [] {
      assert (a + b)[1..] == a[1..] + b;
      RunsPrefix(Step(s, a[0]), a[1..], b);
    }
  }

  lemma {:induction false} RunAnswered(s0: System, actions: seq<Action>)
    requires Initial(s0) && Runs(s0, actions)
    ensures SystemInv(After(s0, actions)) && Answered(After(s0, actions), s0, actions)
    decreases |actions|
  {
    if actions == [] {
      InitialInv(s0);
    } else {
      var before, a := actions[..|actions| - 1], actions[|actions| - 1];
      assert actions == before + [a];
      RunsPrefix(s0, before, [a]);
      RunsAppend(s0, before, [a]);
      var s := After(s0, before);
      assert Runs(s, [a]) && [a][1..] == [] && After(s, [a]) == After(Step(s, a), []);
      RunAnswered(s0, before);
      StepAnswered(s0, before, s, a);
      StepInv(s, a);
    }
  }

  /**
    Over every run a row that is terminal was answered by the judge, to the call that had claimed it,
    and holds what that answer calls for.
   */
  lemma TerminalWasAnswered(s0: System, actions: seq<Action>, r: RowId)
    requires Initial(s0) && Runs(s0, actions) && IsTerminal(After(s0, actions), r)
    ensures WasAnswered(s0, actions, r, After(s0, actions).rows[r].update)
  {
    RunAnswered(s0, actions);
  }

  // ---- when the judge answers ----

  /** The call that gets an answer goes on to write the update the answer calls for. */
  lemma AnswerIsWritten(s: System, i: nat, k: nat, reply: Reply)
    requires Can(s, Handle(i, k, reply)) && (reply.Judged? || reply.JudgeCrashed?)
    ensures var s' := Step(s, Handle(i, k, reply)); var call := s.replicas[i].queue.running[k];
            && s'.rows == s.rows && IsCall(s', i, k)
            && var call' := s'.replicas[i].queue.running[k];
               call'.job == call.job && call'.local.Writing? && StoredFor(call'.local.update, reply)
  {
    if reply.Judged? {
      JudgeReports(reply.results, reply.judgeStatus);
    }
  }

  /** And unless the row is gone or the database fails, the row then holds that update and the call returns. */
  lemma WriteIsStored(s: System, i: nat, k: nat)
    requires Can(s, Handle(i, k, DbDone)) && s.replicas[i].queue.running[k].local.Writing?
    ensures var s' := Step(s, Handle(i, k, DbDone)); var call := s.replicas[i].queue.running[k];
            var r := call.job.payload;
            && IsCall(s', i, k) && s'.replicas[i].queue.running[k].job == call.job
            && (r in s.rows ==> Lookup(s'.rows, r) == Some(Terminal(call.local.update))
                                && s'.replicas[i].queue.running[k].local == Returning)
            && (r !in s.rows ==> r !in s'.rows && s'.replicas[i].queue.running[k].local.Throwing?)
            && (forall r' | r' != r :: Lookup(s'.rows, r') == Lookup(s.rows, r'))
  {
  }

  // ---- when the judge is unavailable ----

  /** The call that learns this writes nothing and goes on to roll back. */
  lemma UnavailableRollsBack(s: System, i: nat, k: nat)
    requires Can(s, Handle(i, k, JudgeUnavailable))
    ensures var s' := Step(s, Handle(i, k, JudgeUnavailable));
            && s'.rows == s.rows && IsCall(s', i, k)
            && s'.replicas[i].queue.running[k] == s.replicas[i].queue.running[k].(local := RollingBack)
  {
  }

  /** Rolling back makes a judging row queued again, unless the database fails, and the call throws either way. */
  lemma RollbackThrows(s: System, i: nat, k: nat, reply: Reply)
    requires Can(s, Handle(i, k, reply)) && s.replicas[i].queue.running[k].local.RollingBack?
    ensures var s' := Step(s, Handle(i, k, reply)); var call := s.replicas[i].queue.running[k];
            var r := call.job.payload;
            && IsCall(s', i, k) && s'.replicas[i].queue.running[k].job == call.job
            && s'.replicas[i].queue.running[k].local.Throwing?
            && Lookup(s'.rows, r) == (if reply.DbDone? && Lookup(s.rows, r) == Some(Judging) then Some(Queued)
                                      else Lookup(s.rows, r))
            && (forall r' | r' != r :: Lookup(s'.rows, r') == Lookup(s.rows, r'))
  {
  }

  /** A database call that fails changes no row, and the call that made it throws that failure. */
  lemma FailureIsThrown(s: System, i: nat, k: nat, message: string)
    requires Can(s, Handle(i, k, DbFailed(message)))
    ensures var s' := Step(s, Handle(i, k, DbFailed(message)));
            && s'.rows == s.rows && IsCall(s', i, k)
            && s'.replicas[i].queue.running[k] == s.replicas[i].queue.running[k].(local := Throwing(message))
  {
  }

  /** A call that throws leaves its job to be retried, or dead-lettered once its attempts are used up. */
  lemma ThrowingIsRetried(s: System, i: nat, k: nat)
    requires Can(s, Finish(i, k)) && s.replicas[i].queue.running[k].local.Throwing?
    ensures var s' := Step(s, Finish(i, k)); var rep := s.replicas[i]; var call := rep.queue.running[k];
            && s'.rows == s.rows
            && if call.job.attempts < rep.config.maxAttempts
               then s'.replicas[i].queue.timers == rep.queue.timers + [call.job]
               else DeadLetter(call.job, Some(call.local.error)) in s'.replicas[i].queue.dead
  {
    var rep := s.replicas[i];
    SettleOutcome(rep.config, rep.queue, k, SettlementOf(rep.queue.running[k].local));
  }
}
