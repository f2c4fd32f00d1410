/** A worker that dies between any two statements of the dedup loop, and the reaper's re-runs: the loop
    executed one repository statement at a time. */
module Restart {
  import opened Wrappers
  import opened Questions
  import opened Repository
  import opened Extraction
  import opened Pipeline
  import D = Dedup

  // The statement an item is at, with the question to link once there is one. A refused statement ends
  // the loop with its error.
  datatype At = AtExact | AtSemantic | AtCreate | AtLink(question: QuestionId) | Stopped(error: RepoError)

  // The tables, the number of the current item and the statement it is at.
  datatype Point = Point(db: DB, item: nat, at: At)

  // The semantic lookup is reached only with an embedding, whoever else writes.
  predicate Placed(sv: Services, eq: ExtractedQuestion, at: At) {
    at.AtSemantic? ==> sv.embed(eq.text).Some?
  }

  // What holds besides as long as there is no other writer: what the lookups found is still true.
  ghost predicate Ready(sv: Services, db: DB, eq: ExtractedQuestion, at: At) {
    && Placed(sv, eq, at) && !at.Stopped?
    && (at.AtSemantic? || at.AtCreate? ==> !HashTaken(db.rows, sv.Hash(eq)))
    && (at.AtLink? ==> at.question in db.rows)
  }

  // What one statement does to the tables, and the statement after it.
  ghost predicate Did(
    sv: Services, session: SessionId, image: ImageId, eq: ExtractedQuestion,
    before: DB, at: At, after: DB, next: At)
  {
    match at
    case AtExact =>
      after == before && next == (
        match IdOf(before.rows, sv.Hash(eq))
        case Some(id) => AtLink(id)
        case None => if sv.embed(eq.text).Some? then AtSemantic else AtCreate)
    case AtSemantic =>
      after == before && sv.embed(eq.text).Some? && (
        var v := sv.embed(eq.text).value;
        || (next.AtLink? && IsNearest(sv.metric, before.rows, v, next.question))
        || (next.AtCreate? && forall k :: k in before.rows ==> !Candidate(sv.metric, before.rows[k], v)))
    case AtCreate =>
      if HashTaken(before.rows, sv.Hash(eq)) then after == before && next == Stopped(Duplicate)
      else next.AtLink? && next.question !in before.rows && after == Insert(before, next.question, sv.NewRow(eq))
    case AtLink(q) =>
      var l := Link(session, image, q);
      if LinkAllowed(before, l) then next.AtExact? && after == InsertLink(before, l, LinkInfo(eq.number, 0.0))
      else after == before && next == Stopped(ForeignKey)
    case Stopped(_) => after == before && next == at
  }

  method Statement(
    repo: QuestionRepo, sv: Services, session: SessionId, image: ImageId, eq: ExtractedQuestion, at: At)
    returns (next: At)
    requires Inv(repo.State()) && Placed(sv, eq, at)
    modifies repo`rows, repo`links
    ensures Did(sv, session, image, eq, old(repo.State()), at, repo.State(), next)
  {
    match at
    case AtExact =>
      var existing := repo.FindExact(sv.Hash(eq));
      next := if existing.Some? then AtLink(existing.value)
        else if sv.embed(eq.text).Some? then AtSemantic else AtCreate;
    case AtSemantic =>
      var existing := repo.FindSemantic(sv.metric, sv.embed(eq.text).value);
      next := if existing.Some? then AtLink(existing.value) else AtCreate;
    case AtCreate =>
      var r := CreateNew(repo, sv, eq);
      next := if r.Ok? then AtLink(r.value) else Stopped(r.error);
    case AtLink(q) =>
      var r := repo.LinkToSession(Link(session, image, q), LinkInfo(eq.number, 0.0));
      next := if r.Ok? then AtExact else Stopped(r.error);
    case Stopped(_) =>
      next := at;
  }

  lemma {:induction false} DidKeepsInv(
    sv: Services, session: SessionId, image: ImageId, eq: ExtractedQuestion,
    before: DB, at: At, after: DB, next: At)
    requires Inv(before) && JobOk(before, session, image) && Ready(sv, before, eq, at)
    requires Did(sv, session, image, eq, before, at, after, next)
    ensures Inv(after) && JobOk(after, session, image) && Ready(sv, after, eq, next)
  {
    match at
    case AtExact =>
    case AtSemantic =>
    case AtCreate => ApplyKeepsInv(before, Create(next.question, sv.NewRow(eq)));
    case AtLink(q) => ApplyKeepsInv(before, LinkTo(Link(session, image, q), LinkInfo(eq.number, 0.0)));
  }

  ghost predicate Follows(
    sv: Services, session: SessionId, image: ImageId, qs: seq<ExtractedQuestion>, p: Point, q: Point)
  {
    if p.item >= |qs| then q == p
    else
      && Did(sv, session, image, qs[p.item], p.db, p.at, q.db, q.at)
      && q.item == if p.at.AtLink? && q.at.AtExact? then p.item + 1 else p.item
  }

  // The points the loop went through, statement by statement.
  ghost predicate Traced(
    sv: Services, session: SessionId, image: ImageId, qs: seq<ExtractedQuestion>, trace: seq<Point>)
  {
    && trace != [] && trace[0].item == 0 && trace[0].at == AtExact
    && forall k :: 0 <= k < |trace| - 1 ==> Follows(sv, session, image, qs, trace[k], trace[k + 1])
  }

  // The loop until it has executed n statements or is through.
  method RunStatements(
    repo: QuestionRepo, sv: Services, session: SessionId, image: ImageId, qs: seq<ExtractedQuestion>, n: nat)
    returns (ghost trace: seq<Point>)
    requires Inv(repo.State()) && JobOk(repo.State(), session, image)
    modifies repo`rows, repo`links
    ensures Inv(repo.State()) && JobOk(repo.State(), session, image)
    ensures |trace| == n + 1 && Traced(sv, session, image, qs, trace)
    ensures trace[0].db == old(repo.State()) && trace[n].db == repo.State()
  {
    var i, at := 0, AtExact;
    trace := [Point(repo.State(), 0, AtExact)];
    for k := 0 to n
      invariant Inv(repo.State()) && JobOk(repo.State(), session, image)
      invariant |trace| == k + 1 && Traced(sv, session, image, qs, trace)
      invariant trace[0].db == old(repo.State()) && trace[k] == Point(repo.State(), i, at)
      invariant i < |qs| ==> Ready(sv, repo.State(), qs[i], at)
    {
      if i < |qs| {
        ghost var before := repo.State();
        var next := Statement(repo, sv, session, image, qs[i], at);
        DidKeepsInv(sv, session, image, qs[i], before, at, repo.State(), next);
        i, at := if at.AtLink? && next.AtExact? then i + 1 else i, next;
      }
      trace := trace + [Point(repo.State(), i, at)];
    }
  }

  /* ---- the trace is a run of the statement-level machine ---- */

  ghost predicate SamePlace(rows: Rows, at: At, pc: D.Pc) {
    match at
    case AtExact => pc.AtExact?
    case AtSemantic => pc.AtSemantic?
    case AtCreate => pc.AtCreate?
    case AtLink(q) => q in rows && pc == D.AtLink(rows[q].hash)
    case Stopped(_) => false
  }

  ghost predicate Mirrors(p: Point, c: D.Machine)
    requires UniqueHashes(p.db.rows)
  {
    c.store == ViewOf(p.db) && c.next == p.item && SamePlace(p.db.rows, p.at, c.pc)
  }

  lemma {:induction false} FoundBySearch(m: Metric, rows: Rows, it: D.Item, found: Option<QuestionId>)
    requires UniqueHashes(rows) && it.hash !in KnownOf(rows) && it.embedding.Some?
    requires found.Some? ==> IsNearest(m, rows, it.embedding.value, found.value)
    requires found.None? ==> forall k :: k in rows ==> !Candidate(m, rows[k], it.embedding.value)
    ensures D.Found(m, KnownOf(rows), it) == if found.Some? then Some(rows[found.value].hash) else None
  {
    if found.Some? {
      FindsNearestRow(m, rows, it, found.value);
    } else {
      FindsNoRow(m, rows, it);
    }
  }

  // The machine's step, case by case.
  lemma {:induction false} StepExact(j: D.Job, items: seq<D.Item>, c: D.Machine, d: D.Machine)
    requires c.next < |items| && c.pc.AtExact? && d == D.Step(j, items, c)
    ensures d == D.Machine(c.store, c.next,
      if items[c.next].hash in c.store.known then D.AtLink(items[c.next].hash)
      else if items[c.next].embedding.Some? then D.AtSemantic else D.AtCreate)
  {
  }

  lemma {:induction false} StepSemantic(j: D.Job, items: seq<D.Item>, c: D.Machine, d: D.Machine, h: Option<Hash>)
    requires c.next < |items| && c.pc.AtSemantic? && d == D.Step(j, items, c)
    requires D.Found(j.metric, c.store.known, items[c.next]) == h
    ensures d == D.Machine(c.store, c.next, if h.Some? then D.AtLink(h.value) else D.AtCreate)
  {
  }

  lemma {:induction false} StepCreate(j: D.Job, items: seq<D.Item>, c: D.Machine, d: D.Machine)
    requires c.next < |items| && c.pc.AtCreate? && d == D.Step(j, items, c)
    ensures var it := items[c.next];
      d == D.Machine(D.View(c.store.known[it.hash := it], c.store.links), c.next, D.AtLink(it.hash))
  {
  }

  lemma {:induction false} StepLink(j: D.Job, items: seq<D.Item>, c: D.Machine, d: D.Machine)
    requires c.next < |items| && c.pc.AtLink? && d == D.Step(j, items, c)
    ensures d == D.Machine(
      D.View(c.store.known, c.store.links + {(j.session, j.image, c.pc.target)}), c.next + 1, D.AtExact)
  {
  }

  lemma {:induction false} LinkMirrors(
    session: SessionId, image: ImageId, p: Point, q: Point, info: LinkInfo, h: Hash, d: D.Machine)
    requires Inv(p.db) && JobOk(p.db, session, image) && p.at.AtLink? && q.at.AtExact?
    requires p.at.question in p.db.rows && p.db.rows[p.at.question].hash == h
    requires q.db == InsertLink(p.db, Link(session, image, p.at.question), info)
    requires d == D.Machine(
      D.View(ViewOf(p.db).known, ViewOf(p.db).links + {(session, image, h)}), q.item, D.AtExact)
    ensures Inv(q.db) && Mirrors(q, d)
  {
    ViewAfterLink(p.db, Link(session, image, p.at.question), info);
  }

  lemma {:induction false} FollowsIsStep(
    sv: Services, session: SessionId, image: ImageId, qs: seq<ExtractedQuestion>, p: Point, q: Point,
    items: seq<D.Item>, c: D.Machine, d: D.Machine)
    requires Inv(p.db) && JobOk(p.db, session, image) && Mirrors(p, c) && items == sv.Items(qs)
    requires p.item < |qs| ==> Ready(sv, p.db, qs[p.item], p.at)
    requires Follows(sv, session, image, qs, p, q)
    requires d == D.Step(D.Job(sv.metric, session, image), items, c)
    ensures Inv(q.db) && Mirrors(q, d)
  {
    if p.item < |qs| {
      var eq := qs[p.item];
      var j := D.Job(sv.metric, session, image);
      match p.at
      case AtExact =>
        InKnown(p.db.rows, sv.Hash(eq));
        StepExact(j, items, c, d);
      case AtSemantic =>
        InKnown(p.db.rows, sv.Hash(eq));
        var found := if q.at.AtLink? then Some(q.at.question) else None;
        FoundBySearch(sv.metric, p.db.rows, sv.Item(eq), found);
        StepSemantic(j, items, c, d, if found.Some? then Some(p.db.rows[found.value].hash) else None);
      case AtCreate =>
        StepCreate(j, items, c, d);
        ViewAfterCreate(p.db, q.at.question, sv.NewRow(eq));
      case AtLink(id) =>
        StepLink(j, items, c, d);
        LinkMirrors(session, image, p, q, LinkInfo(eq.number, 0.0), p.db.rows[id].hash, d);
    }
  }

  lemma {:induction false} FollowsKeeps(
    sv: Services, session: SessionId, image: ImageId, qs: seq<ExtractedQuestion>, p: Point, q: Point)
    requires Inv(p.db) && JobOk(p.db, session, image)
    requires p.item < |qs| ==> Ready(sv, p.db, qs[p.item], p.at)
    requires Follows(sv, session, image, qs, p, q)
    ensures Inv(q.db) && JobOk(q.db, session, image)
    ensures q.item < |qs| ==> Ready(sv, q.db, qs[q.item], q.at)
  {
    if p.item < |qs| {
      DidKeepsInv(sv, session, image, qs[p.item], p.db, p.at, q.db, q.at);
    }
  }

  lemma {:induction false} TraceIsRun(
    sv: Services, session: SessionId, image: ImageId, qs: seq<ExtractedQuestion>, trace: seq<Point>, k: nat)
    requires Traced(sv, session, image, qs, trace) && k < |trace|
    requires Inv(trace[0].db) && JobOk(trace[0].db, session, image)
    ensures Inv(trace[k].db) && JobOk(trace[k].db, session, image)
    ensures trace[k].item < |qs| ==> Ready(sv, trace[k].db, qs[trace[k].item], trace[k].at)
    ensures Mirrors(trace[k], D.Steps(
      D.Job(sv.metric, session, image), sv.Items(qs), D.Machine(ViewOf(trace[0].db), 0, D.AtExact), k))
  {
    if k > 0 {
      var j, items := D.Job(sv.metric, session, image), sv.Items(qs);
      TraceIsRun(sv, session, image, qs, trace, k - 1);
      assert Follows(sv, session, image, qs, trace[k - 1], trace[k - 1 + 1]);
      var start := D.Machine(ViewOf(trace[0].db), 0, D.AtExact);
      FollowsKeeps(sv, session, image, qs, trace[k - 1], trace[k]);
      FollowsIsStep(sv, session, image, qs, trace[k - 1], trace[k], items,
        D.Steps(j, items, start, k - 1), D.Steps(j, items, start, k));
    }
  }

  // The loop, dying after n statements.
  method DieAfter(
    repo: QuestionRepo, sv: Services, session: SessionId, image: ImageId, qs: seq<ExtractedQuestion>, n: nat)
    requires Inv(repo.State()) && JobOk(repo.State(), session, image)
    modifies repo`rows, repo`links
    ensures Inv(repo.State()) && JobOk(repo.State(), session, image)
    ensures ViewOf(repo.State()) ==
      D.CutOff(D.Job(sv.metric, session, image), ViewOf(old(repo.State())), sv.Items(qs), n)
  {
    ghost var trace := RunStatements(repo, sv, session, image, qs, n);
    TraceIsRun(sv, session, image, qs, trace, n);
  }

  predicate SameStored(a: Row, b: Row) {
    && a.number == b.number && a.text == b.text && a.norm == b.norm && a.hash == b.hash
    && a.choices == b.choices && a.labeling == b.labeling && a.qtype == b.qtype && a.embedding == b.embedding
    && a.status == b.status && a.verifiedAt == b.verifiedAt && a.verifiedBy == b.verifiedBy
  }

  lemma {:induction false} SameLastingStored(a: Row, b: Row)
    requires D.Lasting(a) == D.Lasting(b)
    ensures SameStored(a, b)
  {
    var x, y := D.Lasting(a), D.Lasting(b);
    assert x.number == y.number && x.text == y.text && x.norm == y.norm && x.hash == y.hash;
    assert x.choices == y.choices && x.labeling == y.labeling && x.qtype == y.qtype && x.embedding == y.embedding;
    assert x.status == y.status && x.verifiedAt == y.verifiedAt && x.verifiedBy == y.verifiedBy;
  }

  ghost predicate HasTwin(rows: Rows, r: Row) {
    exists k :: k in rows && SameStored(r, rows[k])
  }

  ghost predicate HasTwinLink(db: DB, l: Link, h: Hash) {
    exists m :: m in db.links && m.session == l.session && m.image == l.image
      && m.question in db.rows && db.rows[m.question].hash == h
  }

  // What it means for two stores to look the same by hash: every question of one is in the other, with
  // all that its creation fixes, and so is every link.
  lemma {:induction false} SameViewMeans(a: DB, b: DB)
    requires Inv(a) && Inv(b) && ViewOf(a) == ViewOf(b)
    ensures forall i :: i in a.rows ==> HasTwin(b.rows, a.rows[i])
    ensures forall l :: l in a.links && l.question in a.rows ==> HasTwinLink(b, l, a.rows[l.question].hash)
  {
    forall i | i in a.rows ensures HasTwin(b.rows, a.rows[i]) {
      var h := a.rows[i].hash;
      KnownRow(a.rows, i);
      InKnown(b.rows, h);
      var k :| k in b.rows && b.rows[k].hash == h;
      KnownRow(b.rows, k);
      SameLastingStored(a.rows[i], b.rows[k]);
    }
    forall l | l in a.links && l.question in a.rows ensures HasTwinLink(b, l, a.rows[l.question].hash) {
      assert (l.session, l.image, a.rows[l.question].hash) in LinkKeys(a.rows, a.links);
      var q := StoredLink(b, l.session, l.image, a.rows[l.question].hash);
      var m := Link(l.session, l.image, q);
      assert m in b.links && m.question in b.rows;
    }
  }

  // However often and wherever the worker died before, one run to the end leaves the same questions, by
  // the part their creation fixes, and the same links as if it had never died. This is with no other
  // writer and with the same extraction and embedding results in every run; Interference has the rest.
  method RunsToEndAfterCrashes(
    repo: QuestionRepo, sv: Services, session: SessionId, image: ImageId, qs: seq<ExtractedQuestion>, cuts: seq<nat>)
    requires Inv(repo.State()) && JobOk(repo.State(), session, image)
    modifies repo`rows, repo`links
    ensures Inv(repo.State())
    ensures RanToEnd(sv, session, image, old(repo.State()), repo.State(), qs)
  {
    ghost var j, items, s := D.Job(sv.metric, session, image), sv.Items(qs), ViewOf(repo.State());
    for k := 0 to |cuts|
      invariant Inv(repo.State()) && JobOk(repo.State(), session, image)
      invariant ViewOf(repo.State()) == D.Crashes(j, s, items, cuts[..k])
    {
      DieAfter(repo, sv, session, image, qs, cuts[k]);
      assert cuts[..k + 1][..k] == cuts[..k];
    }
    assert cuts[..|cuts|] == cuts;
    D.Convergence(j, s, items, cuts);
    ghost var views := D.Runs(j, ViewOf(repo.State()), items);
    var newQs, done, targets := ProcessItems(repo, sv, session, image, qs, |qs|, views);
  }
}
