/** The store and the jobs table together: every job carries the session its image was uploaded to, and
    every stored row was built by one of the program's builders. What the store's invariant asks of its
    writers is derived here from where their values come from. */
module Ownership {
  import opened Wrappers
  import opened Questions
  import opened Drafts
  import opened ImportRows
  import opened ManualEntry
  import opened Extraction
  import opened Pipeline
  import Jobs

  type WorkerId = nat

  // held: the job each worker has claimed, as it was read then. uploads: the session every image ever
  // uploaded was uploaded to; image ids are not handed out twice.
  datatype System = System(
    db: DB, jobs: Jobs.Table, held: map<WorkerId, (Jobs.JobId, Jobs.Job)>, uploads: map<ImageId, SessionId>)

  datatype Event =
    | OpenSession(session: SessionId, user: UserId)
    | Upload(image: ImageId, session: SessionId, bytes: Bytes)
    | Enqueue(id: Jobs.JobId, image: ImageId, now: int)
    | Claim(worker: WorkerId, id: Jobs.JobId, now: int)
    | Complete(worker: WorkerId, now: int)
    | Fail(worker: WorkerId, message: string, now: int)
    | Leave(worker: WorkerId)
    | ReapExhausted(now: int, stale: nat, max: nat)
    | ReapRetry(now: int, stale: nat, max: nat)
    | LinkAs(worker: WorkerId, question: QuestionId, info: LinkInfo)
    | CreateExtracted(id: QuestionId, sv: Services, eq: ExtractedQuestion)
    | CreateByHand(id: QuestionId, e: Env, req: Request, vec: Option<Vec>)
    | ImportOne(id: QuestionId, e: Env, cells: seq<string>, vec: Option<Vec>, now: int)
    | SetEnhanced(image: ImageId, bytes: Bytes)
    | Verification(question: QuestionId, answers: seq<string>, confidence: real, explanation: string)
    | Expert(question: QuestionId, update: Update, expert: UserId, now: int)
    | Delete(question: QuestionId)
    | RemoveUser(user: UserId)

  function ImportedRow(e: Env, cells: seq<string>, vec: Option<Vec>): Row
    requires ParseRow(e, cells).Ok?
  {
    var d := ParseRow(e, cells).value;
    d.row.(tags := TagSet(d.tags), embedding := vec)
  }

  // What the event writes to the store.
  function WriteOf(s: System, e: Event): Option<Write> {
    match e
    case OpenSession(session, user) => Some(Write.OpenSession(session, user))
    case Upload(i, session, bytes) => Some(Write.Upload(i, session, bytes))
    case LinkAs(k, q, info) =>
      if k !in s.held then None
      else Some(LinkTo(Link(s.held[k].1.sessionId, s.held[k].1.imageId, q), info))
    case CreateExtracted(id, sv, eq) => Some(Write.Create(id, sv.NewRow(eq)))
    case CreateByHand(id, env, req, vec) =>
      if Acceptable(req) then Some(Write.Create(id, ManualRow(env, req, vec))) else None
    case ImportOne(id, env, cells, vec, now) =>
      if ParseRow(env, cells).Ok? then Some(Import(id, ImportedRow(env, cells, vec), now)) else None
    case SetEnhanced(i, bytes) => Some(Write.SetEnhanced(i, bytes))
    case Verification(q, a, c, x) => Some(Write.Verification(q, a, c, x))
    case Expert(q, u, expert, now) => Some(Write.Expert(q, u, expert, now))
    case Delete(q) => Some(Write.Delete(q))
    case RemoveUser(u) => Some(Write.RemoveUser(u))
    case _ => None
  }

  // New keys are new, a job is enqueued by the request that uploaded its image, and only pending jobs
  // are claimed. Nothing is asked about sessions or verification fields.
  predicate CanHappen(s: System, e: Event) {
    match e
    case OpenSession(session, _) => session !in s.db.sessions
    case Upload(i, session, _) => i !in s.uploads && session in s.db.sessions
    case Enqueue(id, i, _) => id !in s.jobs && i in s.uploads
    case Claim(k, id, _) => k !in s.held && Jobs.IsOldestPending(s.jobs, id)
    case Complete(k, _) => k in s.held
    case Fail(k, _, _) => k in s.held
    case Leave(k) => k in s.held
    case LinkAs(k, _, _) => k in s.held
    case CreateExtracted(id, _, _) => id !in s.db.rows
    case CreateByHand(id, _, _, _) => id !in s.db.rows
    case ImportOne(id, _, _, _, _) => id !in s.db.rows
    case _ => true
  }

  function JobsAfter(s: System, e: Event): Jobs.Table
    requires CanHappen(s, e)
  {
    match e
    case Enqueue(id, i, now) =>
      // the foreign keys refuse a job whose session or image is gone
      if i in s.db.images && s.uploads[i] in s.db.sessions
      then s.jobs[id := Jobs.NewJob(i, s.uploads[i], now)] else s.jobs
    case Claim(_, id, now) => s.jobs[id := Jobs.ClaimRow(s.jobs[id], now)]
    case Complete(k, now) => Jobs.CompleteIn(s.jobs, s.held[k].0, now)
    case Fail(k, message, now) => Jobs.FailIn(s.jobs, s.held[k].0, message, now)
    case ReapExhausted(now, stale, max) => Jobs.ReapExhaustedIn(s.jobs, now, stale, max)
    case ReapRetry(now, stale, max) => Jobs.ReapRetryIn(s.jobs, now, stale, max)
    case RemoveUser(u) =>
      var db := DeleteUser(s.db, u);
      map id | id in s.jobs && s.jobs[id].imageId in db.images && s.jobs[id].sessionId in db.sessions :: s.jobs[id]
    case _ => s.jobs
  }

  function UploadsAfter(s: System, e: Event): map<ImageId, SessionId> {
    if e.Upload? then s.uploads[e.image := e.session] else s.uploads
  }

  ghost function Next(s: System, e: Event): System
    requires CanHappen(s, e)
  {
    var w := WriteOf(s, e);
    System(
      if w.Some? then Apply(s.db, w.value) else s.db,
      JobsAfter(s, e),
      match e
        case Claim(k, id, now) => s.held[k := (id, Jobs.ClaimRow(s.jobs[id], now))]
        case Leave(k) => s.held - {k}
        case _ => s.held,
      UploadsAfter(s, e))
  }

  // A request enqueues its own image for its own session, if both are still there; deleting a user
  // deletes the jobs of the user's sessions and images and no others.
  lemma {:induction false} JobsExact(s: System, e: Event, id: Jobs.JobId)
    requires CanHappen(s, e) && LinksOk(s.db)
    ensures e.Enqueue? && e.id == id ==>
      (id in JobsAfter(s, e) <==> e.image in s.db.images && s.uploads[e.image] in s.db.sessions)
    ensures e.Enqueue? && e.id == id && id in JobsAfter(s, e) ==>
      JobsAfter(s, e)[id] == Jobs.Job(e.image, s.uploads[e.image], Jobs.Pending, 0, None, e.now, None, None)
    ensures e.RemoveUser? ==>
      (id in JobsAfter(s, e) <==>
        && id in s.jobs && s.jobs[id].imageId in s.db.images && s.jobs[id].sessionId in s.db.sessions
        && s.db.sessions[s.jobs[id].sessionId] != e.user
        && s.db.sessions[s.db.images[s.jobs[id].imageId].session] != e.user)
    ensures id in s.jobs && !e.RemoveUser? ==>
      && id in JobsAfter(s, e)
      && JobsAfter(s, e)[id].imageId == s.jobs[id].imageId && JobsAfter(s, e)[id].sessionId == s.jobs[id].sessionId
  {
    RemoveUserExact(s.db, if e.RemoveUser? then e.user else 0);
  }

  // What each event writes, in the columns themselves.
  predicate WritesAs(s: System, e: Event, w: Option<Write>) {
    match e
    case OpenSession(session, user) => w == Some(Write.OpenSession(session, user))
    case Upload(i, session, bytes) => w == Some(Write.Upload(i, session, bytes))
    case LinkAs(k, q, info) =>
      k in s.held ==> w == Some(LinkTo(Link(s.held[k].1.sessionId, s.held[k].1.imageId, q), info))
    case CreateExtracted(id, sv, eq) => w.Some? && w.value.Create? && w.value.id == id && w.value.row.text == eq.text
    case CreateByHand(id, env, req, vec) =>
      if Acceptable(req) then w.Some? && w.value.Create? && w.value.id == id && EnteredAs(env, req, vec, w.value.row)
      else w.None?
    case ImportOne(id, env, cells, vec, now) =>
      if ParseRow(env, cells).Ok?
      then w.Some? && w.value.Import? && w.value.id == id && w.value.now == now && w.value.row.embedding == vec
      else w.None?
    case SetEnhanced(i, bytes) => w == Some(Write.SetEnhanced(i, bytes))
    case Verification(q, a, c, x) => w == Some(Write.Verification(q, a, c, x))
    case Expert(q, u, expert, now) => w == Some(Write.Expert(q, u, expert, now))
    case Delete(q) => w == Some(Write.Delete(q))
    case RemoveUser(u) => w == Some(Write.RemoveUser(u))
    case _ => w.None?
  }

  lemma {:induction false} WritesExact(s: System, e: Event)
    requires CanHappen(s, e)
    ensures WritesAs(s, e, WriteOf(s, e))
    ensures e.CreateExtracted? ==>
      CreatedFrom(e.sv, WriteOf(s, e).value.row, e.eq) && Unverified(WriteOf(s, e).value.row, e.eq)
  {
    match e
    case CreateExtracted(id, sv, eq) => NewRowContent(sv, eq);
    case CreateByHand(id, env, req, vec) =>
      if Acceptable(req) {
        ManualRowIs(env, req, vec);
      }
    case _ =>
  }

  predicate Carries(uploads: map<ImageId, SessionId>, j: Jobs.Job) {
    j.imageId in uploads && uploads[j.imageId] == j.sessionId
  }

  predicate ImagesOwned(images: Images, uploads: map<ImageId, SessionId>) {
    forall i :: i in images ==> i in uploads && uploads[i] == images[i].session
  }

  // Each job, in the table or in a worker's hands, carries its image's session.
  predicate Owned(s: System) {
    && ImagesOwned(s.db.images, s.uploads)
    && (forall id :: id in s.jobs ==> Carries(s.uploads, s.jobs[id]))
    && (forall k :: k in s.held ==> Carries(s.uploads, s.held[k].1))
  }

  // The hypotheses of the store's writers hold of every event's write.
  lemma {:induction false} WriteIsEnabled(s: System, e: Event)
    requires Owned(s) && CanHappen(s, e) && WriteOf(s, e).Some?
    ensures Enabled(s.db, WriteOf(s, e).value)
  {
    match e
    case LinkAs(k, q, info) => assert Carries(s.uploads, s.held[k].1);
    case _ =>
  }

  lemma {:induction false} JobsStayOwned(s: System, e: Event)
    requires Owned(s) && CanHappen(s, e)
    ensures forall id :: id in JobsAfter(s, e) ==> Carries(UploadsAfter(s, e), JobsAfter(s, e)[id])
  {
    forall id | id in JobsAfter(s, e) ensures Carries(s.uploads, JobsAfter(s, e)[id]) {
      assert id in s.jobs ==> Carries(s.uploads, s.jobs[id]);
    }
  }

  lemma {:induction false} ImagesStayOwned(s: System, e: Event)
    requires Owned(s) && CanHappen(s, e)
    ensures ImagesOwned(Next(s, e).db.images, UploadsAfter(s, e))
  {
    var w := WriteOf(s, e);
    if w.Some? {
      SessionsFixed(s.db, w.value);
      assert w.value.Upload? <==> e.Upload?;
    }
  }

  lemma {:induction false} HeldStayOwned(s: System, e: Event)
    requires Owned(s) && CanHappen(s, e)
    ensures forall k :: k in Next(s, e).held ==> Carries(UploadsAfter(s, e), Next(s, e).held[k].1)
  {
    if e.Claim? {
      assert Carries(s.uploads, s.jobs[e.id]);
    }
    assert forall k :: k in s.held ==> Carries(s.uploads, s.held[k].1);
  }

  lemma {:induction false} StepKeepsOwned(s: System, e: Event)
    requires Inv(s.db) && Owned(s) && CanHappen(s, e)
    ensures Inv(Next(s, e).db) && Owned(Next(s, e))
  {
    var w := WriteOf(s, e);
    if w.Some? {
      WriteIsEnabled(s, e);
      ApplyKeepsInv(s.db, w.value);
    }
    JobsStayOwned(s, e);
    ImagesStayOwned(s, e);
    HeldStayOwned(s, e);
  }

  ghost predicate Legal(s: System, es: seq<Event>)
    decreases |es|
  {
    es == [] || (CanHappen(s, es[0]) && Legal(Next(s, es[0]), es[1..]))
  }

  ghost function After(s: System, es: seq<Event>): System
    requires Legal(s, es)
    decreases |es|
  {
    if es == [] then s else After(Next(s, es[0]), es[1..])
  }

  // From the empty system on: the store's invariant and the ownership of jobs, with nothing assumed about
  // the rows and links that are written.
  lemma {:induction false} RunKeepsOwned(s: System, es: seq<Event>)
    requires Inv(s.db) && Owned(s) && Legal(s, es)
    ensures Inv(After(s, es).db) && Owned(After(s, es))
    decreases |es|
  {
    if es != [] {
      StepKeepsOwned(s, es[0]);
      RunKeepsOwned(Next(s, es[0]), es[1..]);
    }
  }

  // What the pipeline assumes of its job holds exactly as long as the image has not been deleted.
  lemma {:induction false} JobOkIff(s: System, k: WorkerId)
    requires Inv(s.db) && Owned(s) && k in s.held
    ensures var j := s.held[k].1;
      JobOk(s.db, j.sessionId, j.imageId) <==> j.imageId in s.db.images
  {
    assert Carries(s.uploads, s.held[k].1);
  }
}
