/** Pipeline.Run: one claimed job from extraction to its final statement on the queue. */
module JobRun {
  import opened Wrappers
  import opened Questions
  import opened Repository
  import opened Extraction
  import opened Pipeline
  import opened Restart
  import Jobs
  import Retry

  type ExtractVerdict = Retry.Verdict<seq<ExtractedQuestion>>

  const CANCELED := "context canceled"

  function CodeText(c: Retry.Code): string {
    match c
    case UnreadableImage => "unreadable_image"
    case NoQuestionsFound => "no_questions_found"
    case PartialExtraction => "partial_extraction"
    case Other(code) => code
  }

  // The questions to process; none means that the failure handler runs instead.
  function ToProcess(x: ExtractVerdict): seq<ExtractedQuestion> {
    match x
    case Final(Reply(qs, _)) => qs
    case _ => []
  }

  function FailureCode(x: ExtractVerdict): string {
    match x
    case Unavailable(_) => "ai_unavailable"
    case Final(Reply(_, Some(code))) => CodeText(code)
    case _ => "extraction_failed"
  }

  // What may cut a run short: a cancellation seen during extraction or before an item, or a database
  // error at one of an item's statements, the unique violation of a lost race among them.
  datatype Cut =
    | Nothing
    | InExtraction
    | BeforeItem(item: nat)
    | AtStatement(item: nat, statements: nat, error: string)

  predicate Canceled(x: ExtractVerdict, c: Cut) {
    || x.Canceled?
    || (x.Unavailable? && c.InExtraction?)
    || (c.BeforeItem? && x.Final? && x.reply.Reply? && c.item < |x.reply.result|)
  }

  // A statement of the loop reports an error; the context may be alive.
  predicate Broken(x: ExtractVerdict, c: Cut) {
    c.AtStatement? && x.Final? && x.reply.Reply? && c.item < |x.reply.result|
  }

  // A reply with questions that was not cut short.
  ghost predicate Completes(x: ExtractVerdict, c: Cut) {
    && x.Final? && x.reply.Reply? && x.reply.result != []
    && (c.BeforeItem? ==> c.item >= |x.reply.result|)
    && (c.AtStatement? ==> c.item >= |x.reply.result|)
  }

  // No reply and no cancellation, or a reply without questions.
  ghost predicate ComesToNothing(x: ExtractVerdict, c: Cut) {
    || x.NeverTried?
    || (x.Unavailable? && !c.InExtraction?)
    || (x.Final? && x.reply.Transport?)
    || (x.Final? && x.reply.Reply? && x.reply.result == [])
  }

  // The code the failure is filed under: that of the reply, if it has one.
  predicate IsFailureCode(x: ExtractVerdict, code: string) {
    match x
    case Unavailable(_) => code == "ai_unavailable"
    case Final(Reply(_, Some(UnreadableImage))) => code == "unreadable_image"
    case Final(Reply(_, Some(NoQuestionsFound))) => code == "no_questions_found"
    case Final(Reply(_, Some(PartialExtraction))) => code == "partial_extraction"
    case Final(Reply(_, Some(Other(other)))) => code == other
    case _ => code == "extraction_failed"
  }

  // The questions of a reply, processed and verified to the end, or up to the cut.
  method ExecuteQuestions(
    repo: QuestionRepo, sv: Services, session: SessionId, image: ImageId, qs: seq<ExtractedQuestion>,
    c: Cut, verify: Verifier)
    returns (outcome: Jobs.Outcome, newQs: seq<NewQuestion>)
    requires Inv(repo.State()) && JobOk(repo.State(), session, image) && qs != []
    modifies repo`rows, repo`links
    ensures Inv(repo.State()) && !outcome.Panicked?
    ensures c.Nothing? || c.InExtraction? ==> outcome.Succeeded?
    ensures c.BeforeItem? ==> outcome == if c.item < |qs| then Jobs.Errored(CANCELED) else Jobs.Succeeded
    ensures c.AtStatement? ==> outcome == if c.item < |qs| then Jobs.Errored(c.error) else Jobs.Succeeded
    ensures outcome.Succeeded? ==>
      && RanToEnd(sv, session, image, old(repo.State()), repo.State(), qs)
      && Covers(sv, session, image, repo.State(), qs)
      && RowsFrom(sv, old(repo.rows), repo.rows, qs)
      && RowsOfRun(sv, old(repo.rows), repo.rows, newQs, verify(Extractions(newQs)))
      && AllFrom(newQs, qs)
  {
    var until := if c.BeforeItem? || c.AtStatement? then c.item else |qs|;
    var ok;
    ghost var targets;
    ok, newQs, targets := ExecuteExtracted(repo, sv, session, image, qs, until, verify);
    if ok {
      return Jobs.Succeeded, newQs;
    }
    if c.BeforeItem? {
      return Jobs.Errored(CANCELED), newQs;
    }
    ghost var trace := RunStatements(repo, sv, session, image, [qs[c.item]], c.statements);
    outcome := Jobs.Errored(c.error);
  }

  // execute, from the extraction's verdict on, with no other writer in between. failure is the code handed
  // to the failure handler, when it runs.
  method Execute(
    repo: QuestionRepo, sv: Services, session: SessionId, image: ImageId, x: ExtractVerdict,
    c: Cut, verify: Verifier)
    returns (outcome: Jobs.Outcome, newQs: seq<NewQuestion>, failure: Option<string>)
    requires Inv(repo.State()) && JobOk(repo.State(), session, image)
    modifies repo`rows, repo`links
    ensures Inv(repo.State()) && !outcome.Panicked?
    ensures outcome.Succeeded? <==> ComesToNothing(x, c) || Completes(x, c)
    ensures outcome.Succeeded? <==> !Canceled(x, c) && !Broken(x, c)
    ensures Broken(x, c) ==> outcome == Jobs.Errored(c.error)
    // every question of the reply is processed, whatever its error code
    ensures Completes(x, c) ==>
      && RanToEnd(sv, session, image, old(repo.State()), repo.State(), x.reply.result)
      && Covers(sv, session, image, repo.State(), x.reply.result)
      && RowsFrom(sv, old(repo.rows), repo.rows, x.reply.result)
      && RowsOfRun(sv, old(repo.rows), repo.rows, newQs, verify(Extractions(newQs)))
      && AllFrom(newQs, x.reply.result)
    // the failure handler runs exactly when there is nothing to process, and stores nothing
    ensures failure.Some? <==> ComesToNothing(x, c)
    ensures failure.Some? ==> repo.State() == old(repo.State())
    ensures failure.Some? ==> IsFailureCode(x, failure.value)
  {
    if x.Canceled? {
      return Jobs.Errored(CANCELED), [], None;
    }
    if x.Unavailable? && c.InExtraction? {
      return Jobs.Errored(x.message), [], None;
    }
    var qs := ToProcess(x);
    assert qs == if x.Final? && x.reply.Reply? then x.reply.result else [];
    if |qs| == 0 {
      var code := FailureCode(x);
      HandleExtractionFailure(repo, sv, session, image, code);
      return Jobs.Succeeded, [], Some(code);
    }
    failure := None;
    outcome, newQs := ExecuteQuestions(repo, sv, session, image, qs, c, verify);
  }

  predicate Processing(t: Jobs.Table, id: Jobs.JobId) {
    id in t && t[id].status == Jobs.Processing
  }

  // What a run leaves in the jobs table. A row this run does not find processing, and every other row,
  // is left alone; a processing one becomes done only when there was nothing to process or everything was.
  ghost predicate Reported(
    before: Jobs.Table, after: Jobs.Table, id: Jobs.JobId, x: ExtractVerdict, c: Cut,
    canceled: bool, commit: Jobs.Commit, failLands: bool, now: int) {
    && after.Keys == before.Keys
    && (forall k :: k in before && (k != id || !Processing(before, id)) ==> after[k] == before[k])
    && (Processing(before, id) ==>
      var row := after[id];
      if Canceled(x, c) then row == before[id]
      else if Broken(x, c) then
        if canceled || !failLands then row == before[id]
        else row.status == Jobs.Failed && row.lastError == Some(c.error) && row.finishedAt == Some(now)
      else if !commit.NotApplied? then row.status == Jobs.Done && row.finishedAt == Some(now)
      else if canceled || !failLands then row == before[id]
      else
        && row.status == Jobs.Failed && row.lastError == Some("complete failed: " + commit.message)
        && row.finishedAt == Some(now))
  }

  // The statement a run ends with, if any, on the table.
  function Ended(
    t: Jobs.Table, id: Jobs.JobId, outcome: Jobs.Outcome, canceled: bool, commit: Jobs.Commit, failLands: bool,
    now: int): Jobs.Table {
    match outcome
    case Panicked(message) => if failLands then Jobs.FailIn(t, id, message, now) else t
    case Errored(message) => if canceled || !failLands then t else Jobs.FailIn(t, id, message, now)
    case Succeeded =>
      if !commit.NotApplied? then Jobs.CompleteIn(t, id, now)
      else if canceled || !failLands then t
      else Jobs.FailIn(t, id, "complete failed: " + commit.message, now)
  }

  lemma {:induction false} EndedReported(
    t: Jobs.Table, id: Jobs.JobId, outcome: Jobs.Outcome, x: ExtractVerdict, c: Cut,
    canceled: bool, commit: Jobs.Commit, failLands: bool, now: int)
    requires !outcome.Panicked? && (outcome.Succeeded? <==> !Canceled(x, c) && !Broken(x, c))
    requires (Canceled(x, c) ==> canceled) && (Broken(x, c) ==> outcome == Jobs.Errored(c.error))
    ensures Reported(t, Ended(t, id, outcome, canceled, commit, failLands, now), id, x, c, canceled, commit,
      failLands, now)
  {
  }

  method Finish(
    queue: Jobs.JobQueue, id: Jobs.JobId, outcome: Jobs.Outcome, ghost x: ExtractVerdict, ghost c: Cut,
    canceled: bool, commit: Jobs.Commit, failLands: bool, now: int)
    returns (ok: bool)
    requires !outcome.Panicked? && (outcome.Succeeded? <==> !Canceled(x, c) && !Broken(x, c))
    requires (Canceled(x, c) ==> canceled) && (Broken(x, c) ==> outcome == Jobs.Errored(c.error))
    modifies queue
    ensures ok <==> outcome.Succeeded? && commit.Applied?
    ensures Reported(old(queue.jobs), queue.jobs, id, x, c, canceled, commit, failLands, now)
  {
    EndedReported(queue.jobs, id, outcome, x, c, canceled, commit, failLands, now);
    ghost var jobs := queue.jobs;
    ok := queue.FinishRun(id, outcome, canceled, commit, failLands, now);
    assert queue.jobs == Ended(jobs, id, outcome, canceled, commit, failLands, now);
  }

  // When the job's row becomes done through this run, every question of the reply has been processed. The
  // store is as described with no other writer in between; Interference says what else can happen.
  method Run(
    queue: Jobs.JobQueue, repo: QuestionRepo, sv: Services, id: Jobs.JobId, session: SessionId, image: ImageId,
    x: ExtractVerdict, c: Cut, verify: Verifier, canceled: bool, commit: Jobs.Commit, failLands: bool, now: int)
    returns (ok: bool, newQs: seq<NewQuestion>)
    requires Inv(repo.State()) && JobOk(repo.State(), session, image)
    requires Canceled(x, c) ==> canceled
    modifies repo`rows, repo`links, queue
    ensures Inv(repo.State())
    ensures ok <==> (ComesToNothing(x, c) || Completes(x, c)) && commit.Applied?
    ensures Reported(old(queue.jobs), queue.jobs, id, x, c, canceled, commit, failLands, now)
    ensures !Canceled(x, c) && !Broken(x, c) <==> ComesToNothing(x, c) || Completes(x, c)
    ensures ComesToNothing(x, c) ==> repo.State() == old(repo.State())
    ensures Completes(x, c) ==>
      && RanToEnd(sv, session, image, old(repo.State()), repo.State(), x.reply.result)
      && Covers(sv, session, image, repo.State(), x.reply.result)
      && RowsFrom(sv, old(repo.rows), repo.rows, x.reply.result)
      && RowsOfRun(sv, old(repo.rows), repo.rows, newQs, verify(Extractions(newQs)))
  {
    var outcome, failure;
    outcome, newQs, failure := Execute(repo, sv, session, image, x, c, verify);
    ok := Finish(queue, id, outcome, x, c, canceled, commit, failLands, now);
  }
}
