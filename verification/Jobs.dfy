/** The jobs table and the SQL statements the queue issues against it.
    Every statement is one atomic step over the table; `now` is the database clock. */
module Jobs {
  import opened Wrappers
  import opened Ids

  type JobId = nat

  datatype Status = Pending | Processing | Done | Failed

  datatype Job = Job(
    imageId: nat, sessionId: nat, status: Status, attempts: nat, lastError: Option<string>,
    queuedAt: int, startedAt: Option<int>, finishedAt: Option<int>)
  {
    predicate Finished() {
      status.Done? || status.Failed?
    }

    // The reaper's WHERE clause: a NULL started_at compares as unknown, so it is never stale.
    predicate Stale(cutoff: int) {
      status.Processing? && startedAt.Some? && startedAt.value < cutoff
    }
  }

  type Table = map<JobId, Job>

  function NewJob(imageId: nat, sessionId: nat, now: int): Job {
    Job(imageId, sessionId, Pending, 0, None, now, None, None)
  }

  predicate IsPending(t: Table, id: JobId) {
    id in t && t[id].status.Pending?
  }

  // ORDER BY queued_at LIMIT 1; ties may go either way.
  predicate IsOldestPending(t: Table, id: JobId) {
    IsPending(t, id) && forall k :: k in t && IsPending(t, k) ==> t[id].queuedAt <= t[k].queuedAt
  }

  function ClaimRow(j: Job, now: int): Job {
    j.(status := Processing, startedAt := Some(now), attempts := j.attempts + 1)
  }

  function CompleteRow(j: Job, now: int): Job {
    if j.status.Processing? then j.(status := Done, finishedAt := Some(now)) else j
  }

  function FailRow(j: Job, msg: string, now: int): Job {
    if j.status.Processing? then j.(status := Failed, finishedAt := Some(now), lastError := Some(msg)) else j
  }

  function ReapExhaustedRow(j: Job, now: int, stale: int, max: nat): Job {
    if j.Stale(now - stale) && j.attempts >= max then j.(status := Failed, finishedAt := Some(now)) else j
  }

  function ReapRetryRow(j: Job, now: int, stale: int, max: nat): Job {
    if j.Stale(now - stale) && j.attempts < max then j.(status := Pending, startedAt := None) else j
  }

  function CompleteIn(t: Table, id: JobId, now: int): Table {
    if id in t then t[id := CompleteRow(t[id], now)] else t
  }

  function FailIn(t: Table, id: JobId, msg: string, now: int): Table {
    if id in t then t[id := FailRow(t[id], msg, now)] else t
  }

  function ReapExhaustedIn(t: Table, now: int, stale: int, max: nat): Table {
    map k | k in t :: ReapExhaustedRow(t[k], now, stale, max)
  }

  function ReapRetryIn(t: Table, now: int, stale: int, max: nat): Table {
    map k | k in t :: ReapRetryRow(t[k], now, stale, max)
  }

  // RowsAffected of an UPDATE that changes every row it selects.
  function ChangedRows(before: Table, after: Table): set<JobId>
    requires before.Keys == after.Keys
  {
    set k | k in before && before[k] != after[k]
  }

  // The subquery of the claim finds a row exactly when some job is pending.
  lemma {:induction false} OldestPendingExists(t: Table, ids: set<JobId>) returns (id: JobId)
    requires ids <= t.Keys
    requires ids != {} && forall k :: k in ids ==> t[k].status.Pending?
    ensures id in ids && forall k :: k in ids ==> t[id].queuedAt <= t[k].queuedAt
    decreases ids
  {
    var x :| x in ids;
    if ids == {x} {
      id := x;
    } else {
      assert forall k :: k in ids ==> k == x || k in ids - {x};
      id := OldestPendingExists(t, ids - {x});
      if t[x].queuedAt < t[id].queuedAt {
        id := x;
      }
    }
  }

  lemma {:induction false} ClaimableIff(t: Table)
    ensures (exists id :: IsOldestPending(t, id)) <==> (exists id :: IsPending(t, id))
  {
    var ids := set k | k in t && t[k].status.Pending?;
    if id :| IsPending(t, id) {
      assert id in ids;
      var o := OldestPendingExists(t, ids);
      assert forall k :: k in t && IsPending(t, k) ==> k in ids;
      assert IsOldestPending(t, o);
    }
  }

  // What became of a Complete: done, done but reported as failed, or not done.
  datatype Commit = Applied | ReplyLost(message: string) | NotApplied(message: string)

  datatype Outcome = Succeeded | Errored(message: string) | Panicked(message: string)

  class JobQueue {
    var jobs: Table

    constructor ()
      ensures jobs == map[]
    {
      jobs := map[];
    }

    method Enqueue(imageId: nat, sessionId: nat, now: int) returns (id: JobId)
      modifies this
      ensures id !in old(jobs)
      ensures jobs == old(jobs)[id := NewJob(imageId, sessionId, now)]
      ensures jobs[id] == Job(imageId, sessionId, Pending, 0, None, now, None, None)
    {
      id := FreshId(jobs.Keys);
      jobs := jobs[id := NewJob(imageId, sessionId, now)];
    }

    method Claim(now: int) returns (claimed: Option<(JobId, Job)>)
      modifies this
      ensures claimed.None? <==> forall id :: !IsPending(old(jobs), id)
      ensures claimed.None? ==> jobs == old(jobs)
      ensures claimed.Some? ==>
        var (id, row) := claimed.value;
        && IsOldestPending(old(jobs), id)
        && row == ClaimRow(old(jobs)[id], now)
        && jobs == old(jobs)[id := row]
      ensures claimed.Some? ==>
        var (id, row) := claimed.value;
        var was := old(jobs)[id];
        && was.status == Pending
        && (forall k :: k in old(jobs) && old(jobs)[k].status == Pending ==> was.queuedAt <= old(jobs)[k].queuedAt)
        && row.status == Processing && row.startedAt == Some(now) && row.attempts == was.attempts + 1
        && row.imageId == was.imageId && row.sessionId == was.sessionId && row.queuedAt == was.queuedAt
    {
      var pending := set k | k in jobs && jobs[k].status.Pending?;
      ClaimableIff(jobs);
      if pending == {} {
        claimed := None;
        assert forall id :: IsPending(jobs, id) ==> id in pending;
      } else {
        ghost var some :| some in pending;
        assert IsPending(jobs, some);
        ghost var oldest :| IsOldestPending(jobs, oldest);
        var id :| id in jobs && IsOldestPending(jobs, id);
        var row := ClaimRow(jobs[id], now);
        jobs := jobs[id := row];
        claimed := Some((id, row));
      }
    }

    method Complete(id: JobId, now: int)
      modifies this
      ensures jobs == CompleteIn(old(jobs), id, now)
      ensures id in old(jobs) && old(jobs)[id].status == Processing ==>
        jobs[id].status == Done && jobs[id].finishedAt == Some(now) && jobs[id].lastError == old(jobs)[id].lastError
      ensures id in old(jobs) && old(jobs)[id].status != Processing ==> jobs[id] == old(jobs)[id]
    {
      if id in jobs && jobs[id].status.Processing? {
        jobs := jobs[id := jobs[id].(status := Done, finishedAt := Some(now))];
      }
    }

    method Fail(id: JobId, msg: string, now: int)
      modifies this
      ensures jobs == FailIn(old(jobs), id, msg, now)
      ensures id in old(jobs) && old(jobs)[id].status == Processing ==>
        jobs[id].status == Failed && jobs[id].finishedAt == Some(now) && jobs[id].lastError == Some(msg)
      ensures id in old(jobs) && old(jobs)[id].status != Processing ==> jobs[id] == old(jobs)[id]
    {
      if id in jobs && jobs[id].status.Processing? {
        jobs := jobs[id := jobs[id].(status := Failed, finishedAt := Some(now), lastError := Some(msg))];
      }
    }

    method ReapExhausted(stale: int, max: nat, now: int) returns (affected: nat)
      modifies this
      ensures jobs == ReapExhaustedIn(old(jobs), now, stale, max)
      ensures affected == |ChangedRows(old(jobs), jobs)|
    {
      var selected := set k | k in jobs && jobs[k].Stale(now - stale) && jobs[k].attempts >= max;
      jobs := map k | k in jobs ::
        if k in selected then jobs[k].(status := Failed, finishedAt := Some(now)) else jobs[k];
      assert selected == ChangedRows(old(jobs), jobs);
      affected := |selected|;
    }

    method ReapRetry(stale: int, max: nat, now: int) returns (affected: nat)
      modifies this
      ensures jobs == ReapRetryIn(old(jobs), now, stale, max)
      ensures affected == |ChangedRows(old(jobs), jobs)|
    {
      var selected := set k | k in jobs && jobs[k].Stale(now - stale) && jobs[k].attempts < max;
      jobs := map k | k in jobs ::
        if k in selected then jobs[k].(status := Pending, startedAt := None) else jobs[k];
      assert selected == ChangedRows(old(jobs), jobs);
      affected := |selected|;
    }

    // Two statements, not one transaction: each has its own clock reading. Other sessions may
    // run in between, which QueueRuns models by making them separate events.
    method ReaperReclaim(stale: int, max: int, now1: int, now2: int)
      returns (r: Result<(nat, nat), string>)
      modifies this
      ensures max < 1 ==> r.Err? && jobs == old(jobs)
      ensures max >= 1 ==>
        && var exhausted := ReapExhaustedIn(old(jobs), now1, stale, max);
        && jobs == ReapRetryIn(exhausted, now2, stale, max)
        && r == Ok((|ChangedRows(exhausted, jobs)|, |ChangedRows(old(jobs), exhausted)|))
    {
      if max < 1 {
        return Err("reaper: maxAttempts must be >= 1");
      }
      var failed := ReapExhausted(stale, max, now1);
      var reclaimed := ReapRetry(stale, max, now2);
      r := Ok((reclaimed, failed));
    }

    // A Fail whose own error the caller ignores: it may not reach the table.
    method TryFail(id: JobId, msg: string, lands: bool, now: int)
      modifies this
      ensures jobs == if lands then FailIn(old(jobs), id, msg, now) else old(jobs)
    {
      if lands {
        Fail(id, msg, now);
      }
    }

    // Pipeline.Run after execute has returned: Complete on success, Fail on an error or a panic,
    // and no statement at all when the context was cancelled, so that the reaper recycles the row.
    method FinishRun(id: JobId, outcome: Outcome, canceled: bool, commit: Commit, failLands: bool, now: int)
      returns (ok: bool)
      modifies this
      ensures ok <==> outcome.Succeeded? && commit.Applied?
      ensures outcome.Succeeded? && !commit.NotApplied? ==> jobs == CompleteIn(old(jobs), id, now)
      ensures outcome.Succeeded? && commit.NotApplied? ==>
        jobs == if canceled || !failLands then old(jobs)
                else FailIn(old(jobs), id, "complete failed: " + commit.message, now)
      ensures outcome.Errored? ==>
        jobs == if canceled || !failLands then old(jobs) else FailIn(old(jobs), id, outcome.message, now)
      ensures outcome.Panicked? ==>
        jobs == if failLands then FailIn(old(jobs), id, outcome.message, now) else old(jobs)
    {
      match outcome
      case Panicked(message) =>
        TryFail(id, message, failLands, now);
        return false;
      case Errored(message) =>
        if !canceled {
          TryFail(id, message, failLands, now);
        }
        return false;
      case Succeeded =>
        if !commit.NotApplied? {
          Complete(id, now);
        }
        ok := commit.Applied?;
        if !ok && !canceled {
          TryFail(id, "complete failed: " + commit.message, failLands, now);
        }
    }
  }
}
