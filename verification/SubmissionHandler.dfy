/**
  The judge-submission handler written the way src/lib/submission-jobs.ts writes it:
  statements that move the `status` of one shared row, cut at each await. The methods
  are proved to perform the steps that SubmissionJobs reasons about.
 */
module SubmissionHandlers {
  import opened Wrappers
  import opened SubmissionJobs
  import opened Verdicts
  import opened WorkerQueues

  /** The `submission` table; each method is one atomic database call. */
  class SubmissionTable {
    var rows: map<RowId, Status>

    method FindUnique(id: RowId) returns (row: Option<Status>)
      ensures row.Some? <==> id in rows
      ensures row.Some? ==> rows[id] == row.value
    {
      row := if id in rows then Some(rows[id]) else None;
    }

    /** `updateMany` restricted to one id and one current status. */
    method UpdateMany(id: RowId, current: Status, status: Status) returns (count: nat)
      modifies this
      ensures count == if Lookup(old(rows), id) == Some(current) then 1 else 0
      ensures rows == if count == 1 then old(rows)[id := status] else old(rows)
    {
      if id in rows && rows[id] == current {
        rows := rows[id := status];
        count := 1;
      } else {
        count := 0;
      }
    }

    /** `update`, which has no condition on the status and fails on a missing row. */
    method Update(id: RowId, update: TerminalUpdate) returns (found: bool)
      modifies this
      ensures found <==> id in old(rows)
      ensures rows == if found then old(rows)[id := Terminal(update)] else old(rows)
    {
      found := id in rows;
      if found {
        rows := rows[id := Terminal(update)];
      }
    }
  }

  /** One invocation of the handler, suspended at `pc`. */
  class Invocation {
    const submissionId: RowId
    var pc: Pc

    constructor (submissionId: RowId)
      ensures this.submissionId == submissionId && pc == Reading
    {
      this.submissionId := submissionId;
      pc := Reading;
    }

    /** Runs the handler from one await to the next. */
    method Continue(table: SubmissionTable, reply: Reply)
      requires Awaits(pc, reply)
      modifies this, table
      ensures var (pc', row') := Resume(old(pc), Lookup(old(table.rows), submissionId), reply);
              pc == pc' && Lookup(table.rows, submissionId) == row'
      ensures forall id | id != submissionId :: Lookup(table.rows, id) == Lookup(old(table.rows), id)
    {
      if reply.DbFailed? {
        pc := Throwing(reply.error);
        return;
      }
      match pc
      case Reading =>
        var submission := table.FindUnique(submissionId);
        if submission.None? || submission.value != Queued {
          pc := Returning;
        } else {
          pc := Claiming;
        }
      case Claiming =>
        var count := table.UpdateMany(submissionId, Queued, Judging);
        if count == 0 {
          pc := Returning;
        } else {
          pc := Executing;
        }
      case Executing =>
        match reply {
          case Judged(results, judgeStatus) => pc := Writing(Judge(results, judgeStatus));
          case JudgeUnavailable => pc := RollingBack;
          case JudgeCrashed(message) =>
            var error := if message.Some? then message else Some("Internal judging error");
            pc := Writing(TerminalUpdate(RuntimeError, None, error, None));
        }
      case RollingBack =>
        var count := table.UpdateMany(submissionId, Judging, Queued);
        pc := Throwing("Judge unavailable");
      case Writing(update) =>
        var found := table.Update(submissionId, update);
        pc := if found then Returning else Throwing("record not found");
    }
  }

  /** A new process: its queue is made and importing the module registers the handler. */
  method StartReplica(concurrency: Option<int>, maxAttempts: Option<int>) returns (queue: WorkerQueue<RowId, Pc>)
    ensures fresh(queue) && Registered(queue.handlers)
    ensures Initial(System(map[], [Replica(queue.config, queue.Abs())], {}, {}))
  {
    queue := new WorkerQueue(concurrency, maxAttempts);
    queue.On(JUDGE_SUBMISSION, Reading);
  }
}
