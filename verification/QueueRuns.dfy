/** Runs of the whole worker system over the jobs table: any number of workers claim, complete,
    fail or silently drop jobs, two reaper statements recycle stale rows, and new jobs arrive,
    in any order. A statement carries no fencing token, so a worker whose job was taken away may
    still complete or fail it. */
module QueueRuns {
  import opened Wrappers
  import opened Jobs

  type WorkerId = nat

  // One call of Pipeline.Run by a worker; `settled` once it has issued Complete or Fail.
  datatype Run = Run(job: JobId, attempt: nat, claimedAt: int, settled: bool)

  datatype World = World(now: int, jobs: Table, runs: map<WorkerId, Run>)

  datatype Config = Config(stale: nat, max: nat)

  datatype Event =
    | Tick(elapsed: nat)
    | Enqueue(id: JobId, imageId: nat, sessionId: nat)
    | Claim(worker: WorkerId, id: JobId)
    | Complete(worker: WorkerId)
    | Fail(worker: WorkerId, msg: string)
    | Leave(worker: WorkerId)
    | ReapExhausted
    | ReapRetry

  predicate Enabled(c: Config, w: World, e: Event) {
    match e
    case Tick(_) => true
    case Enqueue(id, _, _) => id !in w.jobs
    case Claim(k, id) => k !in w.runs && IsOldestPending(w.jobs, id)
    case Complete(k) => k in w.runs
    case Fail(k, _) => k in w.runs
    case Leave(k) => k in w.runs
    case ReapExhausted => c.max >= 1
    case ReapRetry => c.max >= 1
  }

  function Next(c: Config, w: World, e: Event): World
    requires Enabled(c, w, e)
  {
    match e
    case Tick(d) => w.(now := w.now + d)
    case Enqueue(id, image, session) => w.(jobs := w.jobs[id := NewJob(image, session, w.now)])
    case Claim(k, id) =>
      var row := ClaimRow(w.jobs[id], w.now);
      w.(jobs := w.jobs[id := row], runs := w.runs[k := Run(id, row.attempts, w.now, false)])
    case Complete(k) =>
      w.(jobs := CompleteIn(w.jobs, w.runs[k].job, w.now), runs := w.runs[k := w.runs[k].(settled := true)])
    case Fail(k, msg) =>
      w.(jobs := FailIn(w.jobs, w.runs[k].job, msg, w.now), runs := w.runs[k := w.runs[k].(settled := true)])
    case Leave(k) => w.(runs := w.runs - {k})
    case ReapExhausted => w.(jobs := ReapExhaustedIn(w.jobs, w.now, c.stale, c.max))
    case ReapRetry => w.(jobs := ReapRetryIn(w.jobs, w.now, c.stale, c.max))
  }

  predicate Legal(c: Config, w: World, es: seq<Event>)
    decreases |es|
  {
    es == [] || (Enabled(c, w, es[0]) && Legal(c, Next(c, w, es[0]), es[1..]))
  }

  function After(c: Config, w: World, es: seq<Event>): World
    requires Legal(c, w, es)
    decreases |es|
  {
    if es == [] then w else After(c, Next(c, w, es[0]), es[1..])
  }

  lemma {:induction false} Cons(c: Config, w: World, e: Event, es: seq<Event>)
    requires Enabled(c, w, e) && Legal(c, Next(c, w, e), es)
    ensures Legal(c, w, [e] + es)
    ensures After(c, w, [e] + es) == After(c, Next(c, w, e), es)
  {
    assert ([e] + es)[1..] == es;
  }

  /* ---- the queue invariant, kept by every event including late Complete and Fail ---- */

  predicate RowOk(max: nat, j: Job) {
    && (j.status.Pending? ==> j.attempts < max)
    && (!j.status.Pending? ==> 1 <= j.attempts <= max)
    && (j.startedAt.None? <==> j.status.Pending?)
    && (j.finishedAt.Some? <==> j.Finished())
  }

  predicate Apart(r: Run, s: Run) {
    r.job == s.job ==> r.attempt != s.attempt
  }

  predicate NotAhead(t: Table, r: Run) {
    r.job in t && r.attempt <= t[r.job].attempts
  }

  // A worker's claim number is at most the row's counter, and no two runs share one.
  predicate RunsOk(w: World) {
    && (forall k :: k in w.runs ==> NotAhead(w.jobs, w.runs[k]))
    && (forall k, l :: k in w.runs && l in w.runs && k != l ==> Apart(w.runs[k], w.runs[l]))
  }

  predicate Inv(c: Config, w: World) {
    c.max >= 1 && (forall id :: id in w.jobs ==> RowOk(c.max, w.jobs[id])) && RunsOk(w)
  }

  // No statement ever moves a row backwards: finished rows never change and counters never drop.
  predicate RowAdvances(a: Job, b: Job) {
    && (a.Finished() ==> b == a)
    && a.attempts <= b.attempts
    && a.queuedAt == b.queuedAt
    && a.imageId == b.imageId && a.sessionId == b.sessionId
  }

  lemma {:induction false} StepKeepsRow(c: Config, w: World, e: Event, id: JobId)
    requires c.max >= 1 && Enabled(c, w, e) && id in w.jobs && RowOk(c.max, w.jobs[id])
    ensures id in Next(c, w, e).jobs
    ensures RowOk(c.max, Next(c, w, e).jobs[id]) && RowAdvances(w.jobs[id], Next(c, w, e).jobs[id])
  {
  }

  predicate CountersGrow(a: Table, b: Table) {
    forall id :: id in a ==> id in b && a[id].attempts <= b[id].attempts
  }

  predicate SameClaim(w: World, next: World, k: WorkerId)
    requires k in next.runs
  {
    k in w.runs && next.runs[k].job == w.runs[k].job && next.runs[k].attempt == w.runs[k].attempt
  }

  lemma {:induction false} FewerRuns(w: World, next: World)
    requires RunsOk(w) && CountersGrow(w.jobs, next.jobs)
    requires forall k :: k in next.runs ==> SameClaim(w, next, k)
    ensures RunsOk(next)
  {
    forall k | k in next.runs ensures NotAhead(next.jobs, next.runs[k]) {
      assert SameClaim(w, next, k) && NotAhead(w.jobs, w.runs[k]);
    }
    forall k, l | k in next.runs && l in next.runs && k != l ensures Apart(next.runs[k], next.runs[l]) {
      assert SameClaim(w, next, k) && SameClaim(w, next, l) && Apart(w.runs[k], w.runs[l]);
    }
  }

  lemma {:induction false} ClaimKeepsRuns(c: Config, w: World, k: WorkerId, id: JobId)
    requires RunsOk(w) && Enabled(c, w, Claim(k, id))
    ensures RunsOk(Next(c, w, Claim(k, id)))
  {
    var next := Next(c, w, Claim(k, id));
    assert forall l :: l in next.runs && l != k ==> l in w.runs && next.runs[l] == w.runs[l];
  }

  lemma {:induction false} StepKeepsRuns(c: Config, w: World, e: Event)
    requires RunsOk(w) && Enabled(c, w, e) && CountersGrow(w.jobs, Next(c, w, e).jobs)
    ensures RunsOk(Next(c, w, e))
  {
    if e.Claim? {
      ClaimKeepsRuns(c, w, e.worker, e.id);
    } else {
      var next := Next(c, w, e);
      forall k | k in next.runs ensures SameClaim(w, next, k) {
        match e {
          case Complete(_) =>
          case Fail(_, _) =>
          case Leave(_) =>
          case _ => assert next.runs == w.runs;
        }
      }
      FewerRuns(w, next);
    }
  }

  lemma {:induction false} StepKeepsInv(c: Config, w: World, e: Event)
    requires Inv(c, w) && Enabled(c, w, e)
    ensures Inv(c, Next(c, w, e))
    ensures forall id :: id in w.jobs ==>
      id in Next(c, w, e).jobs && RowAdvances(w.jobs[id], Next(c, w, e).jobs[id])
  {
    var next := Next(c, w, e);
    forall id | id in w.jobs
      ensures id in next.jobs && RowOk(c.max, next.jobs[id]) && RowAdvances(w.jobs[id], next.jobs[id])
    {
      StepKeepsRow(c, w, e, id);
    }
    StepKeepsRuns(c, w, e);
    forall id | id in next.jobs ensures RowOk(c.max, next.jobs[id]) {
      if id !in w.jobs {
        assert e.Enqueue? && next.jobs[id] == NewJob(e.imageId, e.sessionId, w.now);
      }
    }
  }

  lemma {:induction false} RunKeepsInv(c: Config, w: World, es: seq<Event>)
    requires Inv(c, w) && Legal(c, w, es)
    ensures Inv(c, After(c, w, es))
    ensures forall id :: id in w.jobs ==>
      id in After(c, w, es).jobs && RowAdvances(w.jobs[id], After(c, w, es).jobs[id])
    decreases |es|
  {
    if es != [] {
      StepKeepsInv(c, w, es[0]);
      RunKeepsInv(c, Next(c, w, es[0]), es[1..]);
    }
  }

  /* ---- what each event does to a row, in the columns themselves ---- */

  predicate RunsOn(w: World, k: WorkerId, id: JobId) {
    k in w.runs && w.runs[k].job == id
  }

  // A processing row whose worker started it before the stale threshold.
  predicate Overdue(c: Config, now: int, j: Job) {
    j.status == Processing && j.startedAt.Some? && j.startedAt.value < now - c.stale
  }

  // A status is entered exactly by the event that stands for it; times, errors and attempts change with
  // it and not otherwise.
  lemma {:induction false} StepExact(c: Config, w: World, e: Event, id: JobId)
    requires Enabled(c, w, e) && id in w.jobs
    ensures id in Next(c, w, e).jobs
    ensures var a, b := w.jobs[id], Next(c, w, e).jobs[id];
      && (b.status == Done && a.status != Done <==>
        a.status == Processing && e.Complete? && RunsOn(w, e.worker, id))
      && (b.status == Failed && a.status != Failed <==>
        || (a.status == Processing && e.Fail? && RunsOn(w, e.worker, id))
        || (e.ReapExhausted? && Overdue(c, w.now, a) && a.attempts >= c.max))
      && (b.status == Processing && a.status != Processing <==> e.Claim? && e.id == id)
      && (b.status == Pending && a.status != Pending <==>
        e.ReapRetry? && Overdue(c, w.now, a) && a.attempts < c.max)
    ensures var a, b := w.jobs[id], Next(c, w, e).jobs[id];
      && b.lastError == (if e.Fail? && a.status == Processing && RunsOn(w, e.worker, id) then Some(e.msg)
                         else a.lastError)
      && b.finishedAt == (if a.status != b.status && (b.status == Done || b.status == Failed) then Some(w.now)
                          else a.finishedAt)
      && b.startedAt == (if e.Claim? && e.id == id then Some(w.now)
                         else if a.status != Pending && b.status == Pending then None else a.startedAt)
      && b.attempts == a.attempts + (if e.Claim? && e.id == id then 1 else 0)
      && b.imageId == a.imageId && b.sessionId == a.sessionId && b.queuedAt == a.queuedAt
  {
  }

  // A claim starts a run under the row's new count, Complete and Fail settle it, the worker leaves it, and
  // nothing else touches it.
  lemma {:induction false} RunExact(c: Config, w: World, e: Event, k: WorkerId)
    requires Enabled(c, w, e)
    ensures var now := Next(c, w, e).runs;
      && (k in now <==> (e.Claim? && e.worker == k) || (k in w.runs && !(e.Leave? && e.worker == k)))
      && (e.Claim? && e.worker == k ==> now[k] == Run(e.id, w.jobs[e.id].attempts + 1, w.now, false))
      && (k in w.runs && k in now ==>
        && now[k].job == w.runs[k].job && now[k].attempt == w.runs[k].attempt
        && now[k].claimedAt == w.runs[k].claimedAt
        && now[k].settled == (w.runs[k].settled || ((e.Complete? || e.Fail?) && e.worker == k)))
    ensures Next(c, w, e).now == w.now + if e.Tick? then e.elapsed else 0
  {
  }

  // Only an upload adds a row, and it is pending, fresh and dated now.
  lemma {:induction false} NewRowExact(c: Config, w: World, e: Event, id: JobId)
    requires Enabled(c, w, e) && id !in w.jobs
    ensures id in Next(c, w, e).jobs <==> e.Enqueue? && e.id == id
    ensures e.Enqueue? && e.id == id ==>
      Next(c, w, e).jobs[id] == Job(e.imageId, e.sessionId, Pending, 0, None, w.now, None, None)
  {
  }

  lemma {:induction false} PrefixLegal(c: Config, w: World, es: seq<Event>, n: nat)
    requires Legal(c, w, es) && n <= |es|
    ensures Legal(c, w, es[..n])
    ensures n > 0 ==> es[..n][0] == es[0] && es[..n][1..] == es[1..][..n - 1]
    decreases |es|
  {
    if n > 0 {
      assert es[..n][1..] == es[1..][..n - 1];
      PrefixLegal(c, Next(c, w, es[0]), es[1..], n - 1);
    }
  }

  lemma {:induction false} FinishedRow(c: Config, w: World, e: Event, id: JobId)
    requires Enabled(c, w, e) && id in w.jobs && w.jobs[id].Finished()
    ensures id in Next(c, w, e).jobs && Next(c, w, e).jobs[id] == w.jobs[id]
  {
  }

  lemma {:induction false} FinishedStays(c: Config, w: World, es: seq<Event>, id: JobId)
    requires Legal(c, w, es) && id in w.jobs && w.jobs[id].Finished()
    ensures id in After(c, w, es).jobs && After(c, w, es).jobs[id] == w.jobs[id]
    decreases |es|
  {
    if es != [] {
      StepExact(c, w, es[0], id);
      FinishedRow(c, w, es[0], id);
      FinishedStays(c, Next(c, w, es[0]), es[1..], id);
    }
  }

  // Over a run: a job that is done at the end was completed, and one that failed was failed by a worker
  // or reaped, at some event of the run, while it was processing.
  lemma {:induction false} FinishedBy(c: Config, w: World, es: seq<Event>, id: JobId) returns (n: nat)
    requires Legal(c, w, es) && id in w.jobs && !w.jobs[id].Finished()
    requires id in After(c, w, es).jobs && After(c, w, es).jobs[id].Finished()
    ensures n < |es| && Legal(c, w, es[..n]) && id in After(c, w, es[..n]).jobs
    ensures var at, j := After(c, w, es[..n]), After(c, w, es).jobs[id];
      && at.jobs[id].status == Processing && j.finishedAt == Some(at.now)
      && (j.status == Done ==> es[n].Complete? && RunsOn(at, es[n].worker, id))
      && (j.status == Failed ==>
        || (es[n].Fail? && RunsOn(at, es[n].worker, id) && j.lastError == Some(es[n].msg))
        || (es[n].ReapExhausted? && Overdue(c, at.now, at.jobs[id]) && j.lastError == at.jobs[id].lastError))
    decreases |es|
  {
    var next := Next(c, w, es[0]);
    StepExact(c, w, es[0], id);
    if next.jobs[id].Finished() {
      n := 0;
      FinishedStays(c, next, es[1..], id);
    } else {
      var m := FinishedBy(c, next, es[1..], id);
      n := m + 1;
      PrefixLegal(c, w, es, n);
    }
  }

  /* ---- termination: a job changes status at most 2 * max times ---- */

  function Measure(max: nat, j: Job): nat
    requires RowOk(max, j)
  {
    match j.status
    case Pending => 2 * (max - j.attempts)
    case Processing => 2 * (max - j.attempts) + 1
    case _ => 0
  }

  predicate StatusChanges(a: Table, b: Table, id: JobId) {
    id in a && id in b && a[id].status != b[id].status
  }

  function CountChanges(c: Config, w: World, es: seq<Event>, id: JobId): nat
    requires Legal(c, w, es)
    decreases |es|
  {
    if es == [] then 0
    else
      var next := Next(c, w, es[0]);
      (if StatusChanges(w.jobs, next.jobs, id) then 1 else 0) + CountChanges(c, next, es[1..], id)
  }

  lemma {:induction false} StatusChangeDropsMeasure(c: Config, w: World, e: Event, id: JobId)
    requires Inv(c, w) && Enabled(c, w, e) && id in w.jobs
    ensures id in Next(c, w, e).jobs && RowOk(c.max, Next(c, w, e).jobs[id])
    ensures var a, b := w.jobs[id], Next(c, w, e).jobs[id];
      if a.status != b.status then Measure(c.max, b) < Measure(c.max, a)
      else Measure(c.max, b) == Measure(c.max, a)
  {
    StepKeepsInv(c, w, e);
  }

  lemma {:induction false} ChangesWithinMeasure(c: Config, w: World, es: seq<Event>, id: JobId)
    requires Inv(c, w) && Legal(c, w, es) && id in w.jobs
    ensures CountChanges(c, w, es, id) <= Measure(c.max, w.jobs[id])
    decreases |es|
  {
    if es != [] {
      StepKeepsInv(c, w, es[0]);
      StatusChangeDropsMeasure(c, w, es[0], id);
      ChangesWithinMeasure(c, Next(c, w, es[0]), es[1..], id);
    }
  }

  lemma {:induction false} JobLifeIsBounded(c: Config, w: World, es: seq<Event>, id: JobId)
    requires Inv(c, w) && Legal(c, w, es) && id !in w.jobs
    ensures CountChanges(c, w, es, id) <= 2 * c.max
    decreases |es|
  {
    if es != [] {
      StepKeepsInv(c, w, es[0]);
      var next := Next(c, w, es[0]);
      if id in next.jobs {
        ChangesWithinMeasure(c, next, es[1..], id);
      } else {
        JobLifeIsBounded(c, next, es[1..], id);
      }
    }
  }

  /* ---- the bound is reached: claim and recycle max - 1 times, claim again, reap ---- */

  function ChurnEvents(c: Config, k: WorkerId, id: JobId, attempts: nat): seq<Event>
    requires attempts < c.max
    decreases c.max - attempts
  {
    [Claim(k, id), Leave(k), Tick(c.stale + 1)]
    + if attempts + 1 < c.max then [ReapRetry] + ChurnEvents(c, k, id, attempts + 1) else [ReapExhausted]
  }

  lemma {:induction false} ConsCount(c: Config, w: World, e: Event, es: seq<Event>, id: JobId)
    requires Enabled(c, w, e) && Legal(c, Next(c, w, e), es)
    ensures Legal(c, w, [e] + es)
    ensures CountChanges(c, w, [e] + es, id)
         == (if StatusChanges(w.jobs, Next(c, w, e).jobs, id) then 1 else 0)
          + CountChanges(c, Next(c, w, e), es, id)
  {
    assert ([e] + es)[1..] == es;
  }

  lemma {:induction false} BoundIsReached(c: Config, w: World, k: WorkerId, id: JobId)
    requires w.jobs.Keys == {id} && w.jobs[id].status.Pending? && w.jobs[id].attempts < c.max
    requires w.runs == map[]
    ensures Legal(c, w, ChurnEvents(c, k, id, w.jobs[id].attempts))
    ensures CountChanges(c, w, ChurnEvents(c, k, id, w.jobs[id].attempts), id)
         == 2 * (c.max - w.jobs[id].attempts)
    decreases c.max - w.jobs[id].attempts
  {
    var n := w.jobs[id].attempts;
    var w1 := Next(c, w, Claim(k, id));
    var w2 := Next(c, w1, Leave(k));
    var w3 := Next(c, w2, Tick(c.stale + 1));
    assert w2.runs == map[];
    var rest;
    if n + 1 < c.max {
      var w4 := Next(c, w3, ReapRetry);
      rest := [ReapRetry] + ChurnEvents(c, k, id, n + 1);
      BoundIsReached(c, w4, k, id);
      ConsCount(c, w3, ReapRetry, ChurnEvents(c, k, id, n + 1), id);
    } else {
      rest := [ReapExhausted];
      ConsCount(c, w3, ReapExhausted, [], id);
    }
    ConsCount(c, w2, Tick(c.stale + 1), rest, id);
    ConsCount(c, w1, Leave(k), [Tick(c.stale + 1)] + rest, id);
    ConsCount(c, w, Claim(k, id), [Leave(k)] + ([Tick(c.stale + 1)] + rest), id);
    assert ChurnEvents(c, k, id, n) == [Claim(k, id)] + ([Leave(k)] + ([Tick(c.stale + 1)] + rest));
  }

  /* ---- leases ---- */

  // Every run that has not settled still owns its row; a settled run's row is finished.
  predicate Lease(w: World) {
    && (forall k :: k in w.runs && !w.runs[k].settled ==>
      var r := w.runs[k];
      && r.job in w.jobs
      && w.jobs[r.job].status.Processing?
      && w.jobs[r.job].attempts == r.attempt
      && w.jobs[r.job].startedAt == Some(r.claimedAt))
    && (forall k :: k in w.runs && w.runs[k].settled ==>
      w.runs[k].job in w.jobs && w.jobs[w.runs[k].job].Finished())
  }

  // The reaper statement's WHERE clause selects the row of this run while it is still going.
  predicate Selects(c: Config, now: int, e: Event, r: Run) {
    && !r.settled && r.claimedAt < now - c.stale
    && ((e.ReapExhausted? && r.attempt >= c.max) || (e.ReapRetry? && r.attempt < c.max))
  }

  predicate ReapsLiveRun(c: Config, w: World, e: Event) {
    exists k :: k in w.runs && Selects(c, w.now, e, w.runs[k])
  }

  lemma {:induction false} AtMostOneLiveRunPerJob(c: Config, w: World, k: WorkerId, l: WorkerId)
    requires Inv(c, w) && Lease(w)
    requires k in w.runs && l in w.runs && !w.runs[k].settled && !w.runs[l].settled
    requires w.runs[k].job == w.runs[l].job
    ensures k == l
  {
    assert k != l ==> Apart(w.runs[k], w.runs[l]);
  }

  lemma {:induction false} LeaseSurvivesSettling(c: Config, w: World, e: Event, k: WorkerId)
    requires Inv(c, w) && Lease(w) && Enabled(c, w, e)
    requires e == Complete(k) || (e.Fail? && e.worker == k)
    ensures Lease(Next(c, w, e))
  {
    var next := Next(c, w, e);
    forall l | l in next.runs && !next.runs[l].settled
      ensures next.jobs[next.runs[l].job] == w.jobs[w.runs[l].job]
    {
      assert l != k;
      if w.runs[l].job == w.runs[k].job && !w.runs[k].settled {
        AtMostOneLiveRunPerJob(c, w, k, l);
      }
    }
  }

  lemma {:induction false} LeaseUnderReaper(c: Config, w: World, e: Event)
    requires Inv(c, w) && Lease(w) && Enabled(c, w, e) && (e.ReapExhausted? || e.ReapRetry?)
    ensures Lease(Next(c, w, e)) <==> !ReapsLiveRun(c, w, e)
  {
    var next := Next(c, w, e);
    forall k | k in w.runs
      ensures w.runs[k].job in next.jobs
      ensures Selects(c, w.now, e, w.runs[k]) ==> !next.jobs[w.runs[k].job].status.Processing?
      ensures !Selects(c, w.now, e, w.runs[k]) ==> next.jobs[w.runs[k].job] == w.jobs[w.runs[k].job]
    {
    }
  }

  lemma {:induction false} LeaseSurvivesClaim(c: Config, w: World, k: WorkerId, id: JobId)
    requires Inv(c, w) && Lease(w) && Enabled(c, w, Claim(k, id))
    ensures Lease(Next(c, w, Claim(k, id)))
  {
    var next := Next(c, w, Claim(k, id));
    forall l | l in next.runs && l != k
      ensures next.runs[l] == w.runs[l] && next.jobs[next.runs[l].job] == w.jobs[w.runs[l].job]
    {
    }
  }

  lemma {:induction false} LeaseStepExact(c: Config, w: World, e: Event)
    requires Inv(c, w) && Lease(w) && Enabled(c, w, e)
    ensures Lease(Next(c, w, e)) <==> !ReapsLiveRun(c, w, e)
  {
    match e {
      case Complete(k) => LeaseSurvivesSettling(c, w, e, k);
      case Fail(k, _) => LeaseSurvivesSettling(c, w, e, k);
      case Claim(k, id) => LeaseSurvivesClaim(c, w, k, id);
      case ReapExhausted => LeaseUnderReaper(c, w, e);
      case ReapRetry => LeaseUnderReaper(c, w, e);
      case Enqueue(_, _, _) =>
      case Tick(_) =>
      case Leave(_) =>
    }
  }

  predicate LeaseThroughout(c: Config, w: World, es: seq<Event>)
    requires Legal(c, w, es)
    decreases |es|
  {
    Lease(w) && (es != [] ==> LeaseThroughout(c, Next(c, w, es[0]), es[1..]))
  }

  predicate NeverReapsLiveRun(c: Config, w: World, es: seq<Event>)
    requires Legal(c, w, es)
    decreases |es|
  {
    es != [] ==> !ReapsLiveRun(c, w, es[0]) && NeverReapsLiveRun(c, Next(c, w, es[0]), es[1..])
  }

  // Every worker still running past the stale threshold has stopped before the reaper looks.
  predicate WorkersArePrompt(c: Config, w: World, es: seq<Event>)
    requires Legal(c, w, es)
    decreases |es|
  {
    es != [] ==>
      && (es[0].ReapExhausted? || es[0].ReapRetry? ==>
        forall k :: k in w.runs && !w.runs[k].settled ==> w.runs[k].claimedAt >= w.now - c.stale)
      && WorkersArePrompt(c, Next(c, w, es[0]), es[1..])
  }

  lemma {:induction false} LeaseExact(c: Config, w: World, es: seq<Event>)
    requires Inv(c, w) && Lease(w) && Legal(c, w, es)
    ensures LeaseThroughout(c, w, es) <==> NeverReapsLiveRun(c, w, es)
    decreases |es|
  {
    if es != [] {
      StepKeepsInv(c, w, es[0]);
      LeaseStepExact(c, w, es[0]);
      if Lease(Next(c, w, es[0])) {
        LeaseExact(c, Next(c, w, es[0]), es[1..]);
      }
    }
  }

  lemma {:induction false} PromptWorkersKeepLeases(c: Config, w: World, es: seq<Event>)
    requires Inv(c, w) && Lease(w) && Legal(c, w, es) && WorkersArePrompt(c, w, es)
    ensures LeaseThroughout(c, w, es)
    ensures Inv(c, After(c, w, es)) && Lease(After(c, w, es))
    decreases |es|
  {
    if es != [] {
      StepKeepsInv(c, w, es[0]);
      LeaseStepExact(c, w, es[0]);
      PromptWorkersKeepLeases(c, Next(c, w, es[0]), es[1..]);
    }
  }

  // Without promptness the lease is lost: two workers run one job, and the first one's late
  // Complete finishes the row the second is still working on.
  lemma {:induction false} SlowWorkerLosesLease(c: Config, w: World, id: JobId)
    requires c.max >= 2
    requires w == World(0, map[id := NewJob(0, 0, 0)], map[])
    ensures var es := [Claim(1, id), Tick(c.stale + 1), ReapRetry, Claim(2, id), Complete(1)];
      && Legal(c, w, es)
      && var end := After(c, w, es);
      && id in end.jobs && end.jobs[id].status.Done?
      && 2 in end.runs && end.runs[2].job == id && !end.runs[2].settled
      && !Lease(end)
  {
    var w1 := Next(c, w, Claim(1, id));
    var w2 := Next(c, w1, Tick(c.stale + 1));
    var w3 := Next(c, w2, ReapRetry);
    var w4 := Next(c, w3, Claim(2, id));
    Cons(c, w4, Complete(1), []);
    Cons(c, w3, Claim(2, id), [Complete(1)]);
    Cons(c, w2, ReapRetry, [Claim(2, id), Complete(1)]);
    Cons(c, w1, Tick(c.stale + 1), [ReapRetry, Claim(2, id), Complete(1)]);
    Cons(c, w, Claim(1, id), [Tick(c.stale + 1), ReapRetry, Claim(2, id), Complete(1)]);
    assert [Claim(1, id), Tick(c.stale + 1), ReapRetry, Claim(2, id), Complete(1)]
        == [Claim(1, id)] + [Tick(c.stale + 1), ReapRetry, Claim(2, id), Complete(1)];
  }

  /* ---- bounded waiting ---- */

  // The claims a row can still consume before a job queued at `q`.
  function Weight(max: nat, j: Job, q: int): nat {
    if !j.Finished() && j.queuedAt <= q && j.attempts < max then max - j.attempts else 0
  }

  ghost function Debt(max: nat, t: Table, ids: set<JobId>, q: int): nat
    requires ids <= t.Keys
  {
    if ids == {} then 0
    else
      var i :| i in ids;
      Weight(max, t[i], q) + Debt(max, t, ids - {i}, q)
  }

  lemma {:induction false} DebtSplit(max: nat, t: Table, ids: set<JobId>, q: int, i: JobId)
    requires ids <= t.Keys && i in ids
    ensures Debt(max, t, ids, q) == Weight(max, t[i], q) + Debt(max, t, ids - {i}, q)
    decreases ids
  {
    var j :| j in ids && Debt(max, t, ids, q) == Weight(max, t[j], q) + Debt(max, t, ids - {j}, q);
    if j != i {
      DebtSplit(max, t, ids - {j}, q, i);
      DebtSplit(max, t, ids - {i}, q, j);
      assert ids - {j} - {i} == ids - {i} - {j};
    }
  }

  lemma {:induction false} DebtMonotone(max: nat, a: Table, b: Table, ids: set<JobId>, q: int)
    requires ids <= a.Keys && ids <= b.Keys
    requires forall i :: i in ids ==> Weight(max, b[i], q) <= Weight(max, a[i], q)
    ensures Debt(max, b, ids, q) <= Debt(max, a, ids, q)
    decreases ids
  {
    if ids != {} {
      var i :| i in ids;
      DebtSplit(max, a, ids, q, i);
      DebtSplit(max, b, ids, q, i);
      DebtMonotone(max, a, b, ids - {i}, q);
    }
  }

  ghost function DebtAhead(c: Config, w: World, id: JobId): nat
    requires id in w.jobs
  {
    Debt(c.max, w.jobs, w.jobs.Keys - {id}, w.jobs[id].queuedAt)
  }

  predicate WaitsThroughout(c: Config, w: World, es: seq<Event>, id: JobId)
    requires Legal(c, w, es)
    decreases |es|
  {
    IsPending(w.jobs, id) && (es != [] ==> WaitsThroughout(c, Next(c, w, es[0]), es[1..], id))
  }

  // New jobs carry a later timestamp than the waiting one.
  predicate LaterArrivals(c: Config, w: World, es: seq<Event>, q: int)
    requires Legal(c, w, es)
    decreases |es|
  {
    es != [] ==> (es[0].Enqueue? ==> w.now > q) && LaterArrivals(c, Next(c, w, es[0]), es[1..], q)
  }

  function CountClaims(es: seq<Event>): nat {
    if es == [] then 0 else (if es[0].Claim? then 1 else 0) + CountClaims(es[1..])
  }

  lemma {:induction false} CountLast(es: seq<Event>, e: Event)
    ensures CountClaims(es + [e]) == CountClaims(es) + if e.Claim? then 1 else 0
  {
    if es == [] {
      assert es + [e] == [e] && [e][1..] == [];
    } else {
      assert (es + [e])[1..] == es[1..] + [e];
      CountLast(es[1..], e);
    }
  }

  // The count is the number of positions that hold a claim.
  lemma {:induction false} ClaimsCounted(es: seq<Event>)
    ensures CountClaims(es) == |set n | 0 <= n < |es| && es[n].Claim?|
  {
    var all := set n | 0 <= n < |es| && es[n].Claim?;
    if es == [] {
      assert all == {};
    } else {
      var m := |es| - 1;
      var before := set n | 0 <= n < |es[..m]| && es[..m][n].Claim?;
      ClaimsCounted(es[..m]);
      CountLast(es[..m], es[m]);
      assert es == es[..m] + [es[m]];
      assert all == before + if es[m].Claim? then {m} else {};
    }
  }

  // No statement makes an existing row heavier, and a claim makes the claimed row lighter by one.
  lemma {:induction false} WeightStep(c: Config, w: World, e: Event, i: JobId, q: int)
    requires Inv(c, w) && Enabled(c, w, e) && i in w.jobs
    ensures i in Next(c, w, e).jobs
    ensures Weight(c.max, Next(c, w, e).jobs[i], q) <= Weight(c.max, w.jobs[i], q)
    ensures e.Claim? && e.id == i && w.jobs[i].queuedAt <= q ==>
      Weight(c.max, Next(c, w, e).jobs[i], q) + 1 == Weight(c.max, w.jobs[i], q)
  {
    StepKeepsRow(c, w, e, i);
  }

  lemma {:induction false} WaitingStep(c: Config, w: World, e: Event, id: JobId)
    requires Inv(c, w) && Enabled(c, w, e)
    requires IsPending(w.jobs, id) && IsPending(Next(c, w, e).jobs, id)
    requires e.Enqueue? ==> w.now > w.jobs[id].queuedAt
    ensures Next(c, w, e).jobs[id].queuedAt == w.jobs[id].queuedAt
    ensures DebtAhead(c, Next(c, w, e), id) + (if e.Claim? then 1 else 0) <= DebtAhead(c, w, id)
  {
    var next := Next(c, w, e);
    var q := w.jobs[id].queuedAt;
    var ids := w.jobs.Keys - {id};
    StepKeepsRow(c, w, e, id);
    forall i | i in w.jobs
      ensures i in next.jobs && Weight(c.max, next.jobs[i], q) <= Weight(c.max, w.jobs[i], q)
    {
      WeightStep(c, w, e, i, q);
    }
    if e.Claim? {
      var i := e.id;
      WeightStep(c, w, e, i, q);
      assert next.jobs.Keys - {id} == ids;
      assert i in ids;
      DebtSplit(c.max, w.jobs, ids, q, i);
      DebtSplit(c.max, next.jobs, ids, q, i);
      DebtMonotone(c.max, w.jobs, next.jobs, ids - {i}, q);
    } else if e.Enqueue? {
      assert next.jobs.Keys - {id} - {e.id} == ids;
      DebtSplit(c.max, next.jobs, next.jobs.Keys - {id}, q, e.id);
      DebtMonotone(c.max, w.jobs, next.jobs, ids, q);
    } else {
      assert next.jobs.Keys - {id} == ids;
      DebtMonotone(c.max, w.jobs, next.jobs, ids, q);
    }
  }

  // While a job waits, the other claims that succeed are paid for by the older unfinished jobs.
  lemma {:induction false} BoundedWaiting(c: Config, w: World, es: seq<Event>, id: JobId)
    requires Inv(c, w) && Legal(c, w, es) && WaitsThroughout(c, w, es, id)
    requires LaterArrivals(c, w, es, w.jobs[id].queuedAt)
    ensures CountClaims(es) <= DebtAhead(c, w, id)
    decreases |es|
  {
    if es != [] {
      var next := Next(c, w, es[0]);
      StepKeepsInv(c, w, es[0]);
      WaitingStep(c, w, es[0], id);
      BoundedWaiting(c, next, es[1..], id);
    }
  }

  lemma {:induction false} OneAhead(c: Config, w: World, id: JobId, waiting: JobId)
    requires id != waiting && w.jobs.Keys == {id, waiting} && IsPending(w.jobs, id)
    requires w.jobs[id].attempts < c.max && w.jobs[id].queuedAt < w.jobs[waiting].queuedAt
    ensures DebtAhead(c, w, waiting) == c.max - w.jobs[id].attempts
  {
    var q := w.jobs[waiting].queuedAt;
    assert w.jobs.Keys - {waiting} == {id} && {id} - {id} == {};
    DebtSplit(c.max, w.jobs, {id}, q, id);
  }

  lemma {:induction false} ConsWaits(c: Config, w: World, e: Event, es: seq<Event>, id: JobId, q: int)
    requires Enabled(c, w, e) && Legal(c, Next(c, w, e), es) && !e.Enqueue?
    requires IsPending(w.jobs, id) && WaitsThroughout(c, Next(c, w, e), es, id)
    requires LaterArrivals(c, Next(c, w, e), es, q)
    ensures Legal(c, w, [e] + es) && WaitsThroughout(c, w, [e] + es, id) && LaterArrivals(c, w, [e] + es, q)
    ensures CountClaims([e] + es) == CountClaims(es) + if e.Claim? then 1 else 0
  {
    assert ([e] + es)[1..] == es;
  }

  // One claim that is dropped and goes stale.
  ghost function AfterRound(c: Config, w: World, k: WorkerId, id: JobId): World
    requires k !in w.runs && IsOldestPending(w.jobs, id)
  {
    Next(c, Next(c, Next(c, w, Claim(k, id)), Leave(k)), Tick(c.stale + 1))
  }

  lemma {:induction false} RoundWaits(
      c: Config, w: World, k: WorkerId, id: JobId, waiting: JobId, rest: seq<Event>, q: int)
    requires id != waiting && k !in w.runs && IsOldestPending(w.jobs, id) && IsPending(w.jobs, waiting)
    requires Legal(c, AfterRound(c, w, k, id), rest)
    requires WaitsThroughout(c, AfterRound(c, w, k, id), rest, waiting)
    requires LaterArrivals(c, AfterRound(c, w, k, id), rest, q)
    ensures var es := [Claim(k, id)] + ([Leave(k)] + ([Tick(c.stale + 1)] + rest));
      && Legal(c, w, es) && WaitsThroughout(c, w, es, waiting) && LaterArrivals(c, w, es, q)
      && CountClaims(es) == CountClaims(rest) + 1
  {
    var w1 := Next(c, w, Claim(k, id));
    var w2 := Next(c, w1, Leave(k));
    ConsWaits(c, w2, Tick(c.stale + 1), rest, waiting, q);
    ConsWaits(c, w1, Leave(k), [Tick(c.stale + 1)] + rest, waiting, q);
    ConsWaits(c, w, Claim(k, id), [Leave(k)] + ([Tick(c.stale + 1)] + rest), waiting, q);
  }

  // The round leaves the job overdue with one attempt more, and the other one as it was.
  lemma {:induction false} RoundLeaves(c: Config, w: World, k: WorkerId, id: JobId, waiting: JobId)
    requires id != waiting && w.jobs.Keys == {id, waiting} && w.runs == map[] && IsOldestPending(w.jobs, id)
    ensures var w3 := AfterRound(c, w, k, id);
      && w3.runs == map[] && w3.jobs.Keys == {id, waiting} && w3.jobs[waiting] == w.jobs[waiting]
      && Overdue(c, w3.now, w3.jobs[id]) && w3.jobs[id].attempts == w.jobs[id].attempts + 1
      && w3.jobs[id].queuedAt == w.jobs[id].queuedAt
  {
    var w1 := Next(c, w, Claim(k, id));
    assert w1.jobs.Keys == {id, waiting} && Next(c, w1, Leave(k)).runs == map[];
  }

  lemma {:induction false} RecycledAgain(c: Config, w: World, id: JobId, waiting: JobId)
    requires id != waiting && w.jobs.Keys == {id, waiting} && w.runs == map[] && IsPending(w.jobs, waiting)
    requires Overdue(c, w.now, w.jobs[id]) && w.jobs[id].attempts < c.max
    ensures var next := Next(c, w, ReapRetry);
      && next.runs == map[] && next.jobs.Keys == {id, waiting} && next.jobs[waiting] == w.jobs[waiting]
      && IsPending(next.jobs, id) && next.jobs[id].attempts == w.jobs[id].attempts
      && next.jobs[id].queuedAt == w.jobs[id].queuedAt
  {
  }

  function ReapEvents(c: Config, k: WorkerId, id: JobId, attempts: nat): seq<Event> {
    if attempts < c.max then [ReapRetry] + ChurnEvents(c, k, id, attempts) else [ReapExhausted]
  }

  lemma {:induction false} ChurnIs(c: Config, k: WorkerId, id: JobId, n: nat)
    requires n < c.max
    ensures ChurnEvents(c, k, id, n) ==
      [Claim(k, id)] + ([Leave(k)] + ([Tick(c.stale + 1)] + ReapEvents(c, k, id, n + 1)))
  {
  }

  ghost predicate WaitsWhile(c: Config, w: World, es: seq<Event>, waiting: JobId, claims: nat)
    requires waiting in w.jobs
  {
    && Legal(c, w, es) && WaitsThroughout(c, w, es, waiting)
    && LaterArrivals(c, w, es, w.jobs[waiting].queuedAt) && CountClaims(es) == claims
  }

  ghost predicate OlderAndWaiting(w: World, id: JobId, waiting: JobId) {
    && id != waiting && w.jobs.Keys == {id, waiting} && w.runs == map[]
    && IsPending(w.jobs, waiting) && w.jobs[id].queuedAt < w.jobs[waiting].queuedAt
  }

  lemma {:induction false} ReapedWaits(c: Config, w: World, k: WorkerId, id: JobId, waiting: JobId)
    requires OlderAndWaiting(w, id, waiting) && Overdue(c, w.now, w.jobs[id])
    requires 1 <= w.jobs[id].attempts <= c.max
    ensures WaitsWhile(c, w, ReapEvents(c, k, id, w.jobs[id].attempts), waiting, c.max - w.jobs[id].attempts)
    decreases c.max - w.jobs[id].attempts, 1
  {
    var n, q := w.jobs[id].attempts, w.jobs[waiting].queuedAt;
    if n < c.max {
      RecycledAgain(c, w, id, waiting);
      ChurnWaits(c, Next(c, w, ReapRetry), k, id, waiting);
      ConsWaits(c, w, ReapRetry, ChurnEvents(c, k, id, n), waiting, q);
    } else {
      assert [ReapExhausted] + [] == [ReapExhausted];
      ConsWaits(c, w, ReapExhausted, [], waiting, q);
    }
  }

  lemma {:induction false} ChurnWaits(c: Config, w: World, k: WorkerId, id: JobId, waiting: JobId)
    requires OlderAndWaiting(w, id, waiting) && IsPending(w.jobs, id) && w.jobs[id].attempts < c.max
    ensures WaitsWhile(c, w, ChurnEvents(c, k, id, w.jobs[id].attempts), waiting, c.max - w.jobs[id].attempts)
    decreases c.max - w.jobs[id].attempts, 0
  {
    var n, q := w.jobs[id].attempts, w.jobs[waiting].queuedAt;
    RoundLeaves(c, w, k, id, waiting);
    var w3 := AfterRound(c, w, k, id);
    ReapedWaits(c, w3, k, id, waiting);
    var rest := ReapEvents(c, k, id, n + 1);
    RoundWaits(c, w, k, id, waiting, rest, q);
    ChurnIs(c, k, id, n);
  }

  // The bound is reached: an older job that is claimed and recycled until it is exhausted makes a younger
  // one wait for exactly the attempts it has left.
  lemma {:induction false} WaitBoundIsReached(c: Config, w: World, k: WorkerId, id: JobId, waiting: JobId)
    requires id != waiting && w.jobs.Keys == {id, waiting} && w.runs == map[]
    requires IsPending(w.jobs, id) && IsPending(w.jobs, waiting) && w.jobs[id].attempts < c.max
    requires w.jobs[id].queuedAt < w.jobs[waiting].queuedAt
    ensures var es := ChurnEvents(c, k, id, w.jobs[id].attempts);
      && Legal(c, w, es) && WaitsThroughout(c, w, es, waiting)
      && LaterArrivals(c, w, es, w.jobs[waiting].queuedAt)
      && CountClaims(es) == c.max - w.jobs[id].attempts == DebtAhead(c, w, waiting)
  {
    OneAhead(c, w, id, waiting);
    ChurnWaits(c, w, k, id, waiting);
  }
}
