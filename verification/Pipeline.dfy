/** Pipeline.execute over the repository: the dedup loop, the verification write-back and the
    extraction-failure placeholder. The AI services are functions of their input, and nobody else writes
    during a method; Interference takes the loop apart for when somebody does. */
module Pipeline {
  import opened Wrappers
  import opened Ids
  import opened Questions
  import opened Repository
  import opened Labels
  import opened Normalize
  import opened Extraction
  import D = Dedup

  /* ---- the hash view of the store ---- */

  function KnownOf(rows: Rows): D.Known
    requires UniqueHashes(rows)
  {
    map id | id in rows :: rows[id].hash := D.Lasting(rows[id])
  }

  function LinkKeys(rows: Rows, links: Links): set<(SessionId, ImageId, Hash)> {
    set l | l in links && l.question in rows :: (l.session, l.image, rows[l.question].hash)
  }

  function ViewOf(db: DB): D.View
    requires UniqueHashes(db.rows)
  {
    D.View(KnownOf(db.rows), LinkKeys(db.rows, db.links))
  }

  lemma {:induction false} KnownRow(rows: Rows, id: QuestionId)
    requires UniqueHashes(rows) && id in rows
    ensures rows[id].hash in KnownOf(rows) && KnownOf(rows)[rows[id].hash] == D.Lasting(rows[id])
  {
  }

  lemma {:induction false} FindsExactRow(m: Metric, rows: Rows, it: D.Item)
    requires UniqueHashes(rows)
    ensures it.hash in KnownOf(rows) <==> HashTaken(rows, it.hash)
    ensures it.hash in KnownOf(rows) ==> D.Found(m, KnownOf(rows), it) == Some(it.hash)
  {
    if it.hash in KnownOf(rows) {
      assert D.Finds(m, KnownOf(rows), it, it.hash);
    }
  }

  lemma {:induction false} NearIsCandidate(m: Metric, rows: Rows, v: Vec, h: Hash)
    requires UniqueHashes(rows)
    ensures D.Near(m, KnownOf(rows), v, h) <==>
      exists id :: id in rows && rows[id].hash == h && Candidate(m, rows[id], v)
  {
    if id :| id in rows && rows[id].hash == h {
      KnownRow(rows, id);
    }
  }

  lemma {:induction false} FindsNearestRow(m: Metric, rows: Rows, it: D.Item, id: QuestionId)
    requires UniqueHashes(rows) && it.hash !in KnownOf(rows) && it.embedding.Some?
    requires IsNearest(m, rows, it.embedding.value, id)
    ensures D.Found(m, KnownOf(rows), it) == Some(rows[id].hash)
  {
    var known, v, h := KnownOf(rows), it.embedding.value, rows[id].hash;
    KnownRow(rows, id);
    forall k | D.Near(m, known, v, k) ensures D.NoFarther(m, known, v, h, k) {
      NearIsCandidate(m, rows, v, k);
      var i :| i in rows && rows[i].hash == k && Candidate(m, rows[i], v);
      KnownRow(rows, i);
      assert NoFarther(m, rows[id], rows[i], v);
    }
    assert D.Finds(m, known, it, h);
    var k := D.Found(m, known, it).value;
    assert D.NoFarther(m, known, v, h, k) && D.NoFarther(m, known, v, k, h);
  }

  lemma {:induction false} FindsNoRow(m: Metric, rows: Rows, it: D.Item)
    requires UniqueHashes(rows) && it.hash !in KnownOf(rows)
    requires it.embedding.Some? ==> forall k :: k in rows ==> !Candidate(m, rows[k], it.embedding.value)
    ensures D.Found(m, KnownOf(rows), it).None?
  {
    if it.embedding.Some? {
      forall h ensures !D.Near(m, KnownOf(rows), it.embedding.value, h) {
        NearIsCandidate(m, rows, it.embedding.value, h);
      }
    }
    D.FoundNone(m, KnownOf(rows), it);
  }

  lemma {:induction false} InKnown(rows: Rows, h: Hash)
    requires UniqueHashes(rows)
    ensures h in KnownOf(rows) <==> HashTaken(rows, h)
  {
  }

  lemma {:induction false} InsertKeepsUnique(rows: Rows, id: QuestionId, row: Row)
    requires UniqueHashes(rows) && id !in rows && !HashTaken(rows, row.hash)
    ensures UniqueHashes(rows[id := row])
    ensures forall h :: HashTaken(rows[id := row], h) <==> HashTaken(rows, h) || h == row.hash
  {
    var after := rows[id := row];
    forall h ensures HashTaken(after, h) <==> HashTaken(rows, h) || h == row.hash {
      assert after[id].hash == row.hash;
      if i :| i in rows && rows[i].hash == h {
        assert i in after && after[i].hash == h;
      }
    }
  }

  lemma {:induction false} KnownAfterInsert(rows: Rows, id: QuestionId, row: Row)
    requires UniqueHashes(rows) && id !in rows && !HashTaken(rows, row.hash)
    ensures UniqueHashes(rows[id := row])
    ensures KnownOf(rows[id := row]) == KnownOf(rows)[row.hash := D.Lasting(row)]
  {
    var after := rows[id := row];
    InsertKeepsUnique(rows, id, row);
    forall h ensures h in KnownOf(after) <==> h in KnownOf(rows)[row.hash := D.Lasting(row)] {
      InKnown(rows, h);
      InKnown(after, h);
    }
    forall h | h in KnownOf(after) ensures KnownOf(after)[h] == KnownOf(rows)[row.hash := D.Lasting(row)][h] {
      InKnown(after, h);
      var i :| i in after && after[i].hash == h;
      KnownRow(after, i);
      if i != id {
        KnownRow(rows, i);
      }
    }
  }

  lemma {:induction false} LinkKeysAfterInsert(rows: Rows, links: Links, id: QuestionId, row: Row)
    requires id !in rows && forall l :: l in links ==> l.question in rows
    ensures LinkKeys(rows[id := row], links) == LinkKeys(rows, links)
  {
  }

  lemma {:induction false} ViewAfterCreate(db: DB, id: QuestionId, row: Row)
    requires Inv(db) && id !in db.rows && !HashTaken(db.rows, row.hash) && RowOk(row)
    ensures Inv(Insert(db, id, row))
    ensures ViewOf(Insert(db, id, row)) == D.View(ViewOf(db).known[row.hash := D.Lasting(row)], ViewOf(db).links)
  {
    ApplyKeepsInv(db, Create(id, row));
    KnownAfterInsert(db.rows, id, row);
    assert forall l :: l in db.links ==> LinkOk(db, l);
    LinkKeysAfterInsert(db.rows, db.links, id, row);
  }

  lemma {:induction false} LinkKeysAfterLink(rows: Rows, links: Links, l: Link, info: LinkInfo)
    requires l.question in rows
    ensures LinkKeys(rows, links[l := info]) ==
      LinkKeys(rows, links) + {(l.session, l.image, rows[l.question].hash)}
  {
    var key := (l.session, l.image, rows[l.question].hash);
    var after := links[l := info];
    assert l in after;
    forall k | k in LinkKeys(rows, links) ensures k in LinkKeys(rows, after) {
      var m :| m in links && m.question in rows && k == (m.session, m.image, rows[m.question].hash);
      assert m in after;
    }
  }

  lemma {:induction false} ViewAfterLink(db: DB, l: Link, info: LinkInfo)
    requires Inv(db) && LinkOk(db, l)
    ensures Inv(InsertLink(db, l, info))
    ensures ViewOf(InsertLink(db, l, info)) ==
      D.View(ViewOf(db).known, ViewOf(db).links + {(l.session, l.image, db.rows[l.question].hash)})
  {
    ApplyKeepsInv(db, LinkTo(l, info));
    if l !in db.links {
      LinkKeysAfterLink(db.rows, db.links, l, info);
    }
  }

  /* ---- step 4: the dedup loop ---- */

  // A question created by this run, with the extraction it came from.
  datatype NewQuestion = NewQuestion(id: QuestionId, ext: ExtractedQuestion)

  // The store's rows after this run has created the rows of `newQs`, in order.
  function AddRows(sv: Services, rows: Rows, newQs: seq<NewQuestion>): Rows {
    if newQs == [] then rows
    else
      var nq := newQs[|newQs| - 1];
      AddRows(sv, rows, newQs[..|newQs| - 1])[nq.id := sv.NewRow(nq.ext)]
  }

  // New questions are extracted ones, stored under new ids.
  predicate FreshIds(sv: Services, qs: seq<ExtractedQuestion>, rows: Rows, newQs: seq<NewQuestion>) {
    newQs == [] || (
      var init, nq := newQs[..|newQs| - 1], newQs[|newQs| - 1];
      FreshIds(sv, qs, rows, init) && nq.id !in AddRows(sv, rows, init) && nq.ext in qs)
  }

  predicate AllFrom(newQs: seq<NewQuestion>, qs: seq<ExtractedQuestion>) {
    forall k :: 0 <= k < |newQs| ==> newQs[k].ext in qs
  }

  lemma {:induction false} FreshAllFrom(sv: Services, qs: seq<ExtractedQuestion>, rows: Rows, newQs: seq<NewQuestion>)
    requires FreshIds(sv, qs, rows, newQs)
    ensures AllFrom(newQs, qs)
  {
    if newQs != [] {
      FreshAllFrom(sv, qs, rows, newQs[..|newQs| - 1]);
    }
  }

  predicate Distinct(newQs: seq<NewQuestion>) {
    forall k, l :: 0 <= k < l < |newQs| ==> newQs[k].id != newQs[l].id
  }

  lemma {:induction false} OldRow(sv: Services, qs: seq<ExtractedQuestion>, rows: Rows, newQs: seq<NewQuestion>)
    requires FreshIds(sv, qs, rows, newQs)
    ensures forall i :: i in rows ==>
      i in AddRows(sv, rows, newQs) && AddRows(sv, rows, newQs)[i] == rows[i]
  {
    if newQs != [] {
      OldRow(sv, qs, rows, newQs[..|newQs| - 1]);
    }
  }

  lemma {:induction false} AddedRow(
    sv: Services, qs: seq<ExtractedQuestion>, rows: Rows, newQs: seq<NewQuestion>, k: nat)
    requires FreshIds(sv, qs, rows, newQs) && k < |newQs|
    ensures newQs[k].id in AddRows(sv, rows, newQs) && newQs[k].id !in rows
    ensures AddRows(sv, rows, newQs)[newQs[k].id] == sv.NewRow(newQs[k].ext)
  {
    var n := |newQs| - 1;
    if k < n {
      AddedRow(sv, qs, rows, newQs[..n], k);
    } else {
      OldRow(sv, qs, rows, newQs[..n]);
    }
  }

  lemma {:induction false} OnlyAddedRows(sv: Services, rows: Rows, newQs: seq<NewQuestion>, i: QuestionId)
    returns (k: nat)
    requires i in AddRows(sv, rows, newQs) && i !in rows
    ensures k < |newQs| && newQs[k].id == i
  {
    var n := |newQs| - 1;
    if newQs[n].id == i {
      k := n;
    } else {
      k := OnlyAddedRows(sv, rows, newQs[..n], i);
    }
  }

  lemma {:induction false} AddedApart(
    sv: Services, qs: seq<ExtractedQuestion>, rows: Rows, newQs: seq<NewQuestion>, k: nat, l: nat)
    requires FreshIds(sv, qs, rows, newQs) && k < l < |newQs|
    ensures newQs[k].id != newQs[l].id
  {
    var n := |newQs| - 1;
    if l < n {
      AddedApart(sv, qs, rows, newQs[..n], k, l);
    } else {
      AddedRow(sv, qs, rows, newQs[..n], k);
    }
  }

  predicate IsNew(sv: Services, before: Rows, after: Rows, nq: NewQuestion) {
    nq.id !in before && nq.id in after && after[nq.id] == sv.NewRow(nq.ext)
  }

  lemma {:induction false} AddedRows(sv: Services, qs: seq<ExtractedQuestion>, rows: Rows, newQs: seq<NewQuestion>)
    requires FreshIds(sv, qs, rows, newQs)
    ensures Distinct(newQs)
    ensures forall k :: 0 <= k < |newQs| ==> IsNew(sv, rows, AddRows(sv, rows, newQs), newQs[k])
    ensures forall i :: i in AddRows(sv, rows, newQs) && i !in rows ==>
      exists k :: 0 <= k < |newQs| && newQs[k].id == i
  {
    forall k | 0 <= k < |newQs| ensures IsNew(sv, rows, AddRows(sv, rows, newQs), newQs[k]) {
      AddedRow(sv, qs, rows, newQs, k);
    }
    forall k, l | 0 <= k < l < |newQs| ensures newQs[k].id != newQs[l].id {
      AddedApart(sv, qs, rows, newQs, k, l);
    }
    forall i | i in AddRows(sv, rows, newQs) && i !in rows
      ensures exists k :: 0 <= k < |newQs| && newQs[k].id == i
    {
      var k := OnlyAddedRows(sv, rows, newQs, i);
    }
  }

  ghost predicate JobOk(db: DB, session: SessionId, image: ImageId) {
    session in db.sessions && image in db.images && db.images[image].session == session
  }

  // What one item comes to on the tables, in the three ways it can go.
  lemma {:induction false} ExactItem(m: Metric, session: SessionId, image: ImageId, db: DB, it: D.Item, id: QuestionId)
    requires UniqueHashes(db.rows) && IdOf(db.rows, it.hash) == Some(id)
    ensures D.DoItem(D.Job(m, session, image), ViewOf(db), it) ==
      D.View(ViewOf(db).known, ViewOf(db).links + {(session, image, db.rows[id].hash)})
  {
    FindsExactRow(m, db.rows, it);
    D.ItemFound(D.Job(m, session, image), ViewOf(db), it, it.hash);
  }

  lemma {:induction false} NearItem(m: Metric, session: SessionId, image: ImageId, db: DB, it: D.Item, id: QuestionId)
    requires UniqueHashes(db.rows) && !HashTaken(db.rows, it.hash)
    requires it.embedding.Some? && IsNearest(m, db.rows, it.embedding.value, id)
    ensures D.DoItem(D.Job(m, session, image), ViewOf(db), it) ==
      D.View(ViewOf(db).known, ViewOf(db).links + {(session, image, db.rows[id].hash)})
  {
    InKnown(db.rows, it.hash);
    FindsNearestRow(m, db.rows, it, id);
    D.ItemFound(D.Job(m, session, image), ViewOf(db), it, db.rows[id].hash);
  }

  lemma {:induction false} NewItem(m: Metric, session: SessionId, image: ImageId, db: DB, it: D.Item)
    requires UniqueHashes(db.rows) && !HashTaken(db.rows, it.hash)
    requires it.embedding.Some? ==> forall k :: k in db.rows ==> !Candidate(m, db.rows[k], it.embedding.value)
    ensures D.DoItem(D.Job(m, session, image), ViewOf(db), it) ==
      D.View(ViewOf(db).known[it.hash := it], ViewOf(db).links + {(session, image, it.hash)})
  {
    InKnown(db.rows, it.hash);
    FindsNoRow(m, db.rows, it);
    D.ItemCreated(D.Job(m, session, image), ViewOf(db), it);
  }

  // A new row always carries a labeling the column admits: only its hash can be refused.
  method CreateNew(repo: QuestionRepo, sv: Services, eq: ExtractedQuestion)
    returns (r: Result<QuestionId, RepoError>)
    modifies repo`rows
    ensures r.Err? <==> HashTaken(old(repo.rows), sv.Hash(eq))
    ensures r.Err? ==> r.error == Duplicate && repo.rows == old(repo.rows)
    ensures r.Ok? ==> r.value !in old(repo.rows) && repo.rows == old(repo.rows)[r.value := sv.NewRow(eq)]
    ensures r.Ok? ==> repo.State() == Insert(old(repo.State()), r.value, sv.NewRow(eq))
  {
    var row := sv.NewRow(eq);
    r := repo.Create(row, LabelingText(row.labeling), ["ai-generated"] + eq.tags);
  }

  method LinkOnly(repo: QuestionRepo, session: SessionId, image: ImageId, id: QuestionId, info: LinkInfo)
    requires Inv(repo.State()) && JobOk(repo.State(), session, image) && id in repo.rows
    modifies repo`links
    ensures Inv(repo.State())
    ensures ViewOf(repo.State()) == ViewOf(old(repo.State())).(
      links := ViewOf(old(repo.State())).links + {(session, image, repo.rows[id].hash)})
    ensures repo.links == if Link(session, image, id) in old(repo.links) then old(repo.links)
      else old(repo.links)[Link(session, image, id) := info]
  {
    ViewAfterLink(repo.State(), Link(session, image, id), info);
    var r := repo.LinkToSession(Link(session, image, id), info);
  }

  // The stored row for an extracted question, if there is one: the row of its hash or else the nearest.
  ghost predicate Matches(sv: Services, rows: Rows, eq: ExtractedQuestion, q: QuestionId) {
    if HashTaken(rows, sv.Hash(eq)) then q in rows && rows[q].hash == sv.Hash(eq)
    else sv.embed(eq.text).Some? && IsNearest(sv.metric, rows, sv.embed(eq.text).value, q)
  }

  ghost predicate NoMatch(sv: Services, rows: Rows, eq: ExtractedQuestion) {
    && !HashTaken(rows, sv.Hash(eq))
    && (sv.embed(eq.text).Some? ==>
      forall k :: k in rows ==> !Candidate(sv.metric, rows[k], sv.embed(eq.text).value))
  }

  // A question is created exactly when nothing stored matches it, and linked to the match or the new row.
  method ProcessOne(repo: QuestionRepo, sv: Services, session: SessionId, image: ImageId, eq: ExtractedQuestion)
    returns (created: Option<QuestionId>, ghost linked: QuestionId)
    requires Inv(repo.State()) && JobOk(repo.State(), session, image)
    modifies repo`rows, repo`links
    ensures Inv(repo.State())
    ensures ViewOf(repo.State()) ==
      D.DoItem(D.Job(sv.metric, session, image), ViewOf(old(repo.State())), sv.Item(eq))
    ensures created.Some? <==> NoMatch(sv, old(repo.rows), eq)
    ensures created.None? ==> repo.rows == old(repo.rows) && Matches(sv, repo.rows, eq, linked)
    ensures created.Some? ==>
      && linked == created.value && linked !in old(repo.rows)
      && repo.rows == old(repo.rows)[linked := sv.NewRow(eq)]
      && CreatedFrom(sv, repo.rows[linked], eq) && Unverified(repo.rows[linked], eq)
    ensures repo.links == if Link(session, image, linked) in old(repo.links) then old(repo.links)
      else old(repo.links)[Link(session, image, linked) := LinkInfo(eq.number, 0.0)]
  {
    ghost var db := repo.State();
    var it := sv.Item(eq);
    var info := LinkInfo(eq.number, 0.0);
    NewRowContent(sv, eq);
    var existing := repo.FindExact(it.hash);
    if existing.Some? {
      ExactItem(sv.metric, session, image, db, it, existing.value);
      LinkOnly(repo, session, image, existing.value, info);
      return None, existing.value;
    }
    if it.embedding.Some? {
      existing := repo.FindSemantic(sv.metric, it.embedding.value);
      if existing.Some? {
        NearItem(sv.metric, session, image, db, it, existing.value);
        LinkOnly(repo, session, image, existing.value, info);
        return None, existing.value;
      }
    }
    NewItem(sv.metric, session, image, db, it);
    var r := CreateNew(repo, sv, eq);
    ViewAfterCreate(db, r.value, sv.NewRow(eq));
    LinkOnly(repo, session, image, r.value, info);
    return Some(r.value), r.value;
  }

  predicate NumberOf(qs: seq<ExtractedQuestion>, number: int) {
    exists i :: 0 <= i < |qs| && qs[i].number == number
  }

  // A link the run has added is the job's, with the number its question was extracted under.
  predicate LinkOfRun(session: SessionId, image: ImageId, qs: seq<ExtractedQuestion>, l: Link, info: LinkInfo) {
    l.session == session && l.image == image && NumberOf(qs, info.number) && info.confidence == 0.0
  }

  // The links after the first questions of a run have been linked to these targets, in order.
  function AddLinks(
    links: Links, session: SessionId, image: ImageId, qs: seq<ExtractedQuestion>, targets: seq<QuestionId>): Links
    requires |targets| <= |qs|
  {
    if targets == [] then links
    else
      var n := |targets| - 1;
      var prev, l := AddLinks(links, session, image, qs, targets[..n]), Link(session, image, targets[n]);
      if l in prev then prev else prev[l := LinkInfo(qs[n].number, 0.0)]
  }

  lemma {:induction false} AddNextLink(
    links: Links, session: SessionId, image: ImageId, qs: seq<ExtractedQuestion>, targets: seq<QuestionId>,
    q: QuestionId)
    requires |targets| < |qs|
    ensures var prev, l := AddLinks(links, session, image, qs, targets), Link(session, image, q);
      AddLinks(links, session, image, qs, targets + [q]) ==
        if l in prev then prev else prev[l := LinkInfo(qs[|targets|].number, 0.0)]
  {
    assert (targets + [q])[..|targets|] == targets;
  }

  // Old links keep what they say; each target is linked, and every new link is of the run.
  lemma {:induction false} AddedLinks(
    links: Links, session: SessionId, image: ImageId, qs: seq<ExtractedQuestion>, targets: seq<QuestionId>)
    requires |targets| <= |qs|
    ensures var after := AddLinks(links, session, image, qs, targets);
      && (forall l :: l in links ==> l in after && after[l] == links[l])
      && (forall k :: 0 <= k < |targets| ==> Link(session, image, targets[k]) in after)
      && (forall l :: l in after && l !in links ==> LinkOfRun(session, image, qs, l, after[l]))
  {
    if targets != [] {
      AddedLinks(links, session, image, qs, targets[..|targets| - 1]);
      assert NumberOf(qs, qs[|targets| - 1].number);
    }
  }

  lemma {:induction false} AddNext(
    sv: Services, qs: seq<ExtractedQuestion>, rows: Rows, newQs: seq<NewQuestion>, nq: NewQuestion)
    requires FreshIds(sv, qs, rows, newQs) && nq.id !in AddRows(sv, rows, newQs) && nq.ext in qs
    ensures FreshIds(sv, qs, rows, newQs + [nq])
    ensures AddRows(sv, rows, newQs + [nq]) == AddRows(sv, rows, newQs)[nq.id := sv.NewRow(nq.ext)]
  {
    assert (newQs + [nq])[..|newQs|] == newQs;
  }

  // The questions the run has created so far are extracted ones, and their rows are the ones added.
  ghost predicate Progress(
    sv: Services, before: DB, now: DB, session: SessionId, image: ImageId,
    qs: seq<ExtractedQuestion>, newQs: seq<NewQuestion>, targets: seq<QuestionId>) {
    && now.rows == AddRows(sv, before.rows, newQs) && FreshIds(sv, qs, before.rows, newQs)
    && |targets| <= |qs| && now.links == AddLinks(before.links, session, image, qs, targets)
  }

  // The loop's body: one item, and what it adds to the new questions.
  method ProcessNext(
    repo: QuestionRepo, sv: Services, session: SessionId, image: ImageId,
    qs: seq<ExtractedQuestion>, i: nat, newQs: seq<NewQuestion>, ghost before: DB, ghost targets: seq<QuestionId>)
    returns (more: seq<NewQuestion>, ghost linked: seq<QuestionId>)
    requires Inv(repo.State()) && JobOk(repo.State(), session, image) && i == |targets| < |qs|
    requires Progress(sv, before, repo.State(), session, image, qs, newQs, targets)
    modifies repo`rows, repo`links
    ensures Inv(repo.State())
    ensures ViewOf(repo.State()) ==
      D.DoItem(D.Job(sv.metric, session, image), ViewOf(old(repo.State())), sv.Item(qs[i]))
    ensures |linked| == i + 1 && Progress(sv, before, repo.State(), session, image, qs, more, linked)
  {
    var created, target := ProcessOne(repo, sv, session, image, qs[i]);
    AddNextLink(before.links, session, image, qs, targets, target);
    linked := targets + [target];
    more := newQs;
    if created.Some? {
      AddNext(sv, qs, before.rows, newQs, NewQuestion(created.value, qs[i]));
      more := newQs + [NewQuestion(created.value, qs[i])];
    }
  }

  // The context is found cancelled before item `cancelAt`, if there is such an item; `views` are
  // the stores of the item-level run.
  method ProcessItems(
    repo: QuestionRepo, sv: Services, session: SessionId, image: ImageId,
    qs: seq<ExtractedQuestion>, cancelAt: nat, ghost views: seq<D.View>)
    returns (newQs: seq<NewQuestion>, done: nat, ghost targets: seq<QuestionId>)
    requires Inv(repo.State()) && JobOk(repo.State(), session, image)
    requires D.Chain(D.Job(sv.metric, session, image), views, sv.Items(qs)) && views[0] == ViewOf(repo.State())
    modifies repo`rows, repo`links
    ensures Inv(repo.State())
    ensures done == if cancelAt < |qs| then cancelAt else |qs|
    ensures ViewOf(repo.State()) == views[done]
    ensures |targets| == done && Progress(sv, old(repo.State()), repo.State(), session, image, qs, newQs, targets)
  {
    targets := [];
    newQs := [];
    done := 0;
    ghost var before := repo.State();
    while done < |qs|
      invariant done <= |qs| && done <= cancelAt
      invariant Inv(repo.State())
      invariant ViewOf(repo.State()) == views[done]
      invariant |targets| == done && Progress(sv, before, repo.State(), session, image, qs, newQs, targets)
    {
      if done >= cancelAt {
        return;
      }
      newQs, targets := ProcessNext(repo, sv, session, image, qs, done, newQs, before, targets);
      done := done + 1;
    }
  }

  /* ---- coverage and dedup classes in the store ---- */

  lemma {:induction false} StoredLink(db: DB, session: SessionId, image: ImageId, h: Hash) returns (q: QuestionId)
    requires Inv(db) && (session, image, h) in ViewOf(db).links
    ensures Link(session, image, q) in db.links && q in db.rows && db.rows[q].hash == h
  {
    var l :| l in db.links && l.question in db.rows
      && (session, image, h) == (l.session, l.image, db.rows[l.question].hash);
    assert l == Link(session, image, l.question);
    q := l.question;
  }

  // The store after a loop that was not cut off, by hash.
  ghost predicate RanToEnd(
    sv: Services, session: SessionId, image: ImageId, before: DB, after: DB, qs: seq<ExtractedQuestion>)
    requires UniqueHashes(before.rows) && UniqueHashes(after.rows)
  {
    ViewOf(after) == D.FullRun(D.Job(sv.metric, session, image), ViewOf(before), sv.Items(qs))
  }

  // The extracted question is linked for the session and image to a row with its normalized text's hash or
  // with an embedding within the threshold.
  ghost predicate LinkedFor(
    sv: Services, session: SessionId, image: ImageId, db: DB, eq: ExtractedQuestion, q: QuestionId) {
    && Link(session, image, q) in db.links && q in db.rows
    && (db.rows[q].hash == sv.Hash(eq) ||
        (sv.embed(eq.text).Some? && Candidate(sv.metric, db.rows[q], sv.embed(eq.text).value)))
    && (sv.embed(eq.text).None? ==> db.rows[q].hash == sv.Hash(eq))
  }

  ghost predicate HasLink(sv: Services, session: SessionId, image: ImageId, db: DB, eq: ExtractedQuestion) {
    exists q :: LinkedFor(sv, session, image, db, eq, q)
  }

  ghost predicate Covers(
    sv: Services, session: SessionId, image: ImageId, db: DB, qs: seq<ExtractedQuestion>) {
    forall i :: 0 <= i < |qs| ==> HasLink(sv, session, image, db, qs[i])
  }

  lemma {:induction false} LinkedByHash(
    sv: Services, session: SessionId, image: ImageId, db: DB, eq: ExtractedQuestion, h: Hash)
    returns (q: QuestionId)
    requires Inv(db) && (session, image, h) in ViewOf(db).links
    requires h == sv.Hash(eq) ||
      (sv.embed(eq.text).Some? && D.Near(sv.metric, KnownOf(db.rows), sv.embed(eq.text).value, h))
    requires sv.embed(eq.text).None? ==> h == sv.Hash(eq)
    ensures LinkedFor(sv, session, image, db, eq, q)
  {
    q := StoredLink(db, session, image, h);
    KnownRow(db.rows, q);
  }

  lemma {:induction false} QuestionLinked(
    sv: Services, session: SessionId, image: ImageId, before: DB, after: DB, qs: seq<ExtractedQuestion>, i: nat)
    requires Inv(before) && Inv(after) && i < |qs|
    ensures RanToEnd(sv, session, image, before, after, qs) ==> HasLink(sv, session, image, after, qs[i])
  {
    if RanToEnd(sv, session, image, before, after, qs) {
      var h := D.Coverage(D.Job(sv.metric, session, image), ViewOf(before), sv.Items(qs), i);
      var q := LinkedByHash(sv, session, image, after, qs[i], h);
    }
  }

  // A loop that reached its end has linked every extracted question.
  lemma {:induction false} EveryQuestionLinked(
    sv: Services, session: SessionId, image: ImageId, before: DB, after: DB, qs: seq<ExtractedQuestion>)
    requires Inv(before) && Inv(after)
    ensures RanToEnd(sv, session, image, before, after, qs) ==> Covers(sv, session, image, after, qs)
  {
    forall i: nat | i < |qs|
      ensures RanToEnd(sv, session, image, before, after, qs) ==> HasLink(sv, session, image, after, qs[i])
    {
      QuestionLinked(sv, session, image, before, after, qs, i);
    }
  }

  // Without an embedder two extracted questions share a stored question exactly when their
  // lower-cased word sequences agree. The digest is taken to be collision-free on the two texts.
  lemma {:induction false} DedupClasses(
    sv: Services, session: SessionId, image: ImageId, db: DB, qs: seq<ExtractedQuestion>, i: nat, k: nat)
    returns (p: QuestionId, q: QuestionId)
    requires sv.unicode.Valid() && UniqueHashes(db.rows) && i < |qs| && k < |qs|
    requires sv.embed(qs[i].text).None? && sv.embed(qs[k].text).None?
    requires sv.Hash(qs[i]) == sv.Hash(qs[k]) ==> sv.Norm(qs[i]) == sv.Norm(qs[k])
    requires Covers(sv, session, image, db, qs)
    ensures LinkedFor(sv, session, image, db, qs[i], p) && LinkedFor(sv, session, image, db, qs[k], q)
    ensures IdOf(db.rows, sv.Hash(qs[i])) == Some(p) && IdOf(db.rows, sv.Hash(qs[k])) == Some(q)
    ensures p == q <==> Words(sv.unicode, qs[i].text) == Words(sv.unicode, qs[k].text)
  {
    p :| LinkedFor(sv, session, image, db, qs[i], p);
    q :| LinkedFor(sv, session, image, db, qs[k], q);
    SameNormalFormIff(sv.unicode, qs[i].text, qs[k].text);
    IdOfHash(db.rows, p);
    IdOfHash(db.rows, q);
  }

  /* ---- step 5: verification ---- */

  const VERIFY_CONFIDENCE_THRESHOLD := 0.80

  function ResolveVerifiedAnswers(ext: seq<Answer>, ver: seq<Answer>, confidence: real): seq<Answer> {
    if ver == [] then ext
    else if ext != [] && confidence < VERIFY_CONFIDENCE_THRESHOLD then ext
    else ver
  }

  lemma {:induction false} ResolveExact(ext: seq<Answer>, ver: seq<Answer>, confidence: real)
    ensures var r := ResolveVerifiedAnswers(ext, ver, confidence);
      && (r == [] <==> ext == [] && ver == [])
      && (r != ext ==> ver != [] && r == ver && (ext == [] || confidence >= VERIFY_CONFIDENCE_THRESHOLD))
      && (ver != [] && (ext == [] || confidence >= VERIFY_CONFIDENCE_THRESHOLD) ==> r == ver)
  {
  }

  function VerifiedRow(row: Row, ext: ExtractedQuestion, vq: VerifiedQuestion): Row {
    row.(answers := AnswerTexts(ResolveVerifiedAnswers(ext.answers, vq.answers, vq.confidence)),
         confidence := vq.confidence, explanation := vq.explanation)
  }

  predicate SameButAnswers(a: Row, b: Row) {
    b == a.(answers := b.answers, confidence := b.confidence, explanation := b.explanation)
  }

  // What writing one result leaves in a row.
  lemma {:induction false} VerifiedRowIs(row: Row, ext: ExtractedQuestion, vq: VerifiedQuestion)
    ensures var r := VerifiedRow(row, ext, vq);
      SameButAnswers(row, r) && VerifiedBy(r, ext, VerifiedDTO(vq.answers, vq.confidence, vq.explanation))
  {
  }

  // The rows after the first n results have been written, in order.
  function WriteResults(rows: Rows, newQs: seq<NewQuestion>, results: seq<VerifiedQuestion>, n: nat): Rows
    requires n <= |results|
  {
    if n == 0 then rows
    else
      var prev := WriteResults(rows, newQs, results, n - 1);
      var vq := results[n - 1];
      if 0 <= vq.index < |newQs| && newQs[vq.index].id in prev && ConfidenceFits(vq.confidence) then
        var nq := newQs[vq.index];
        prev[nq.id := VerifiedRow(prev[nq.id], nq.ext, vq)]
      else prev
  }

  method WriteBack(repo: QuestionRepo, newQs: seq<NewQuestion>, results: seq<VerifiedQuestion>)
    modifies repo`rows
    ensures repo.rows == WriteResults(old(repo.rows), newQs, results, |results|)
  {
    for n := 0 to |results|
      invariant repo.rows == WriteResults(old(repo.rows), newQs, results, n)
    {
      var vq := results[n];
      if vq.index >= 0 && vq.index < |newQs| {
        var nq := newQs[vq.index];
        var answers := ResolveVerifiedAnswers(nq.ext.answers, vq.answers, vq.confidence);
        var r := repo.UpdateFromVerification(nq.id, AnswerTexts(answers), vq.confidence, vq.explanation);
      }
    }
  }

  ghost predicate Aligned(results: seq<VerifiedQuestion>) {
    forall i :: 0 <= i < |results| ==> results[i].index == i
  }

  // Aligned results change each created row once, with its own extraction and its own result (unless the
  // confidence does not fit its column)...
  lemma {:induction false} VerificationLands(
    rows: Rows, newQs: seq<NewQuestion>, results: seq<VerifiedQuestion>, n: nat, k: nat)
    requires n <= |results| <= |newQs| && Distinct(newQs) && Aligned(results)
    requires k < |newQs| && newQs[k].id in rows
    ensures newQs[k].id in WriteResults(rows, newQs, results, n)
    ensures WriteResults(rows, newQs, results, n)[newQs[k].id] ==
      if k < n && ConfidenceFits(results[k].confidence)
      then VerifiedRow(rows[newQs[k].id], newQs[k].ext, results[k]) else rows[newQs[k].id]
    ensures k < n && -9.995 < results[k].confidence < 9.995 ==>
      VerifiedBy(WriteResults(rows, newQs, results, n)[newQs[k].id], newQs[k].ext,
        VerifiedDTO(results[k].answers, results[k].confidence, results[k].explanation))
  {
    if k < n {
      VerifiedRowIs(rows[newQs[k].id], newQs[k].ext, results[k]);
    }
    if n > 0 {
      VerificationLands(rows, newQs, results, n - 1, k);
      assert results[n - 1].index == n - 1;
      assert k < n - 1 ==> newQs[k].id != newQs[n - 1].id;
      assert k > n - 1 ==> newQs[n - 1].id != newQs[k].id;
    }
  }

  // ... and change nothing else.
  lemma {:induction false} VerificationSpares(
    rows: Rows, newQs: seq<NewQuestion>, results: seq<VerifiedQuestion>, n: nat, id: QuestionId)
    requires n <= |results| && id in rows
    requires forall k :: 0 <= k < |newQs| ==> newQs[k].id != id
    ensures id in WriteResults(rows, newQs, results, n)
    ensures WriteResults(rows, newQs, results, n)[id] == rows[id]
  {
    if n > 0 {
      VerificationSpares(rows, newQs, results, n - 1, id);
    }
  }

  // Only answers, confidence and explanation can change, whatever the results say.
  lemma {:induction false} VerificationTouchesOnly(
    rows: Rows, newQs: seq<NewQuestion>, results: seq<VerifiedQuestion>, n: nat)
    requires n <= |results|
    ensures WriteResults(rows, newQs, results, n).Keys == rows.Keys
    ensures forall id :: id in rows ==> SameButAnswers(rows[id], WriteResults(rows, newQs, results, n)[id])
  {
    if n > 0 {
      VerificationTouchesOnly(rows, newQs, results, n - 1);
    }
  }

  predicate SameLasting(before: Rows, after: Rows) {
    && after.Keys == before.Keys
    && forall id :: id in before ==> D.Lasting(after[id]) == D.Lasting(before[id])
  }

  lemma {:induction false} SameHashes(before: Rows, after: Rows, id: QuestionId)
    requires SameLasting(before, after) && id in before
    ensures after[id].hash == before[id].hash && (RowOk(before[id]) ==> RowOk(after[id]))
  {
    assert D.Lasting(after[id]).hash == D.Lasting(before[id]).hash;
    assert D.Lasting(after[id]).status == D.Lasting(before[id]).status;
    assert D.Lasting(after[id]).verifiedAt == D.Lasting(before[id]).verifiedAt;
    assert D.Lasting(after[id]).verifiedBy == D.Lasting(before[id]).verifiedBy;
  }

  lemma {:induction false} SameLinkKeys(before: Rows, after: Rows, links: Links)
    requires SameLasting(before, after)
    ensures LinkKeys(after, links) == LinkKeys(before, links)
  {
    forall l | l in links && l.question in before ensures after[l.question].hash == before[l.question].hash {
      SameHashes(before, after, l.question);
    }
  }

  lemma {:induction false} SameKnown(before: Rows, after: Rows)
    requires SameLasting(before, after) && UniqueHashes(before)
    ensures UniqueHashes(after) && KnownOf(after) == KnownOf(before)
  {
    forall id | id in before ensures after[id].hash == before[id].hash {
      SameHashes(before, after, id);
    }
  }

  lemma {:induction false} VerificationKeepsView(before: DB, after: DB)
    requires Inv(before) && after == before.(rows := after.rows) && after.rows.Keys == before.rows.Keys
    requires forall id :: id in before.rows ==> SameButAnswers(before.rows[id], after.rows[id])
    ensures Inv(after) && ViewOf(after) == ViewOf(before)
  {
    forall id | id in before.rows ensures D.Lasting(after.rows[id]) == D.Lasting(before.rows[id]) {
      assert SameButAnswers(before.rows[id], after.rows[id]);
    }
    LinksSurvive(before, after);
    forall id | id in after.rows ensures RowOk(after.rows[id]) {
      SameHashes(before.rows, after.rows, id);
    }
    SameKnown(before.rows, after.rows);
    SameLinkKeys(before.rows, after.rows, before.links);
  }

  function Extractions(newQs: seq<NewQuestion>): (r: seq<ExtractedQuestion>)
    ensures |r| == |newQs| && forall k :: 0 <= k < |newQs| ==> r[k] == newQs[k].ext
  {
    seq(|newQs|, k requires 0 <= k < |newQs| => newQs[k].ext)
  }

  type Verifier = seq<ExtractedQuestion> -> Option<seq<VerifiedDTO>>

  // The k-th row is answered as its result says, if there is one whose confidence the column can hold.
  predicate AnsweredRow(
    before: Row, after: Row, eq: ExtractedQuestion, k: nat, verified: Option<seq<VerifiedDTO>>) {
    if verified.Some? && k < |verified.value| && -9.995 < verified.value[k].confidence < 9.995
    then SameButAnswers(before, after) && VerifiedBy(after, eq, verified.value[k])
    else after == before
  }

  // Each created row is answered from its own extraction and the result at its own position, and the
  // other rows stay as they were.
  ghost predicate AnsweredRows(before: Rows, after: Rows, newQs: seq<NewQuestion>, verified: Option<seq<VerifiedDTO>>) {
    && after.Keys == before.Keys
    && (forall k :: 0 <= k < |newQs| ==> newQs[k].id in before)
    && (forall k :: 0 <= k < |newQs| ==>
      AnsweredRow(before[newQs[k].id], after[newQs[k].id], newQs[k].ext, k, verified))
    && (forall id :: id in before && (forall k :: 0 <= k < |newQs| ==> newQs[k].id != id) ==>
      after[id] == before[id])
  }

  method VerifyNew(repo: QuestionRepo, newQs: seq<NewQuestion>, verify: Verifier)
    requires Inv(repo.State()) && Distinct(newQs)
    requires forall k :: 0 <= k < |newQs| ==> newQs[k].id in repo.rows
    modifies repo`rows
    ensures Inv(repo.State()) && ViewOf(repo.State()) == ViewOf(old(repo.State()))
    ensures AnsweredRows(old(repo.rows), repo.rows, newQs, verify(Extractions(newQs)))
  {
    ghost var db := repo.State();
    var toVerify := new ExtractedQuestion[|newQs|](k requires 0 <= k < |newQs| => newQs[k].ext);
    assert toVerify[..] == Extractions(newQs);
    var answer := verify(toVerify[..]);
    if answer.Some? {
      var results := ToResults(answer.value, |newQs|);
      WriteBack(repo, newQs, results);
      VerificationTouchesOnly(db.rows, newQs, results, |results|);
      VerificationKeepsView(db, repo.State());
      forall k | 0 <= k < |newQs|
        ensures AnsweredRow(db.rows[newQs[k].id], repo.rows[newQs[k].id], newQs[k].ext, k, answer)
      {
        assert SameButAnswers(db.rows[newQs[k].id], repo.rows[newQs[k].id]);
        VerificationLands(db.rows, newQs, results, |results|, k);
      }
      forall id | id in repo.rows && (forall k :: 0 <= k < |newQs| ==> newQs[k].id != id)
        ensures repo.rows[id] == db.rows[id]
      {
        VerificationSpares(db.rows, newQs, results, |results|, id);
      }
    }
  }

  /* ---- execute after a successful extraction ---- */

  // What a run leaves in the rows: those that were there before are unchanged, whatever the verifier
  // says, and the others are those of newQs, each answered from its own extraction.
  ghost predicate RowsOfRun(
    sv: Services, before: Rows, after: Rows, newQs: seq<NewQuestion>, verified: Option<seq<VerifiedDTO>>) {
    && Distinct(newQs)
    && (forall id :: id in before ==> id in after && after[id] == before[id])
    && (forall id :: id in after && id !in before ==> exists k :: 0 <= k < |newQs| && newQs[k].id == id)
    && (forall k :: 0 <= k < |newQs| ==> newQs[k].id in after && newQs[k].id !in before)
    && (forall k :: 0 <= k < |newQs| ==>
      CreatedFrom(sv, after[newQs[k].id], newQs[k].ext) && Settled(after[newQs[k].id], newQs[k].ext, k, verified))
  }

  lemma {:induction false} NothingAnswered(rows: Rows, newQs: seq<NewQuestion>, verified: Option<seq<VerifiedDTO>>)
    requires forall k :: 0 <= k < |newQs| ==> newQs[k].id in rows
    requires newQs == [] || verified.None?
    ensures AnsweredRows(rows, rows, newQs, verified)
  {
  }

  lemma {:induction false} RunRows(
    sv: Services, qs: seq<ExtractedQuestion>, before: Rows, after: Rows, newQs: seq<NewQuestion>,
    verified: Option<seq<VerifiedDTO>>)
    requires FreshIds(sv, qs, before, newQs)
    requires AnsweredRows(AddRows(sv, before, newQs), after, newQs, verified)
    ensures RowsOfRun(sv, before, after, newQs, verified)
  {
    AddedRows(sv, qs, before, newQs);
    OldRow(sv, qs, before, newQs);
    forall k | 0 <= k < |newQs|
      ensures newQs[k].id in after && newQs[k].id !in before
      ensures CreatedFrom(sv, after[newQs[k].id], newQs[k].ext)
      ensures Settled(after[newQs[k].id], newQs[k].ext, k, verified)
    {
      assert IsNew(sv, before, AddRows(sv, before, newQs), newQs[k]);
      NewRowContent(sv, newQs[k].ext);
    }
  }

  // Every row that was not there before was created from one of the extracted questions.
  ghost predicate RowsFrom(sv: Services, before: Rows, after: Rows, qs: seq<ExtractedQuestion>) {
    forall id :: id in after && id !in before ==> exists i :: 0 <= i < |qs| && CreatedFrom(sv, after[id], qs[i])
  }

  lemma {:induction false} RunRowsFrom(
    sv: Services, before: Rows, after: Rows, newQs: seq<NewQuestion>, verified: Option<seq<VerifiedDTO>>,
    qs: seq<ExtractedQuestion>)
    requires RowsOfRun(sv, before, after, newQs, verified) && AllFrom(newQs, qs)
    ensures RowsFrom(sv, before, after, qs)
  {
    forall id | id in after && id !in before
      ensures exists i :: 0 <= i < |qs| && CreatedFrom(sv, after[id], qs[i])
    {
      var k :| 0 <= k < |newQs| && newQs[k].id == id;
      var i :| 0 <= i < |qs| && qs[i] == newQs[k].ext;
      assert CreatedFrom(sv, after[id], qs[i]);
    }
  }

  // Verification after the loop: skipped when the run was cut short or everything was known.
  method VerifyRun(
    repo: QuestionRepo, sv: Services, newQs: seq<NewQuestion>, complete: bool, verify: Verifier,
    ghost qs: seq<ExtractedQuestion>, ghost before: Rows)
    requires Inv(repo.State()) && repo.rows == AddRows(sv, before, newQs) && FreshIds(sv, qs, before, newQs)
    modifies repo`rows
    ensures Inv(repo.State()) && ViewOf(repo.State()) == ViewOf(old(repo.State()))
    ensures RowsOfRun(sv, before, repo.rows, newQs, if complete then verify(Extractions(newQs)) else None)
    ensures AllFrom(newQs, qs)
  {
    FreshAllFrom(sv, qs, before, newQs);
    AddedRows(sv, qs, before, newQs);
    ghost var verified := if complete then verify(Extractions(newQs)) else None;
    ghost var added := repo.rows;
    if complete && |newQs| > 0 {
      VerifyNew(repo, newQs, verify);
    } else {
      NothingAnswered(added, newQs, verified);
    }
    RunRows(sv, qs, before, repo.rows, newQs, verified);
  }

  // The loop and the verification after it.
  method CreateAndVerify(
    repo: QuestionRepo, sv: Services, session: SessionId, image: ImageId, qs: seq<ExtractedQuestion>,
    cancelAt: nat, verify: Verifier)
    returns (ok: bool, newQs: seq<NewQuestion>, ghost targets: seq<QuestionId>)
    requires Inv(repo.State()) && JobOk(repo.State(), session, image)
    modifies repo`rows, repo`links
    ensures ok <==> cancelAt >= |qs|
    ensures Inv(repo.State())
    ensures ok ==> RanToEnd(sv, session, image, old(repo.State()), repo.State(), qs)
    ensures RowsOfRun(sv, old(repo.rows), repo.rows, newQs, if ok then verify(Extractions(newQs)) else None)
    ensures AllFrom(newQs, qs)
    ensures |targets| == (if ok then |qs| else cancelAt)
    ensures repo.links == AddLinks(old(repo.links), session, image, qs, targets)
  {
    var done;
    ghost var views := D.Runs(D.Job(sv.metric, session, image), ViewOf(repo.State()), sv.Items(qs));
    newQs, done, targets := ProcessItems(repo, sv, session, image, qs, cancelAt, views);
    ok := done == |qs|;
    VerifyRun(repo, sv, newQs, ok, verify, qs, old(repo.rows));
  }

  method ExecuteExtracted(
    repo: QuestionRepo, sv: Services, session: SessionId, image: ImageId, qs: seq<ExtractedQuestion>,
    cancelAt: nat, verify: Verifier)
    returns (ok: bool, newQs: seq<NewQuestion>, ghost targets: seq<QuestionId>)
    requires Inv(repo.State()) && JobOk(repo.State(), session, image)
    modifies repo`rows, repo`links
    ensures ok <==> cancelAt >= |qs|
    ensures Inv(repo.State())
    ensures ok ==> RanToEnd(sv, session, image, old(repo.State()), repo.State(), qs)
    ensures ok ==> Covers(sv, session, image, repo.State(), qs)
    ensures RowsOfRun(sv, old(repo.rows), repo.rows, newQs, if ok then verify(Extractions(newQs)) else None)
    ensures AllFrom(newQs, qs)
    ensures RowsFrom(sv, old(repo.rows), repo.rows, qs)
    ensures |targets| == (if ok then |qs| else cancelAt)
    ensures repo.links == AddLinks(old(repo.links), session, image, qs, targets)
  {
    ok, newQs, targets := CreateAndVerify(repo, sv, session, image, qs, cancelAt, verify);
    RunRowsFrom(sv, old(repo.rows), repo.rows, newQs, if ok then verify(Extractions(newQs)) else None, qs);
    EveryQuestionLinked(sv, session, image, old(repo.State()), repo.State(), qs);
  }

  /* ---- the placeholder for a failed extraction ---- */

  function Placeholder(sv: Services, image: ImageId, code: string, labeling: Labeling): Row {
    Row(0, "Extraction failed: " + code, "extraction failed " + code, sv.digest("error:" + Itoa(image)),
        [], [], labeling, MultipleChoice, 0.0, "", None, Error, None, None, TagSet(["extraction-failed"]))
  }

  lemma {:induction false} PlaceholderIs(sv: Services, image: ImageId, code: string, labeling: Labeling)
    ensures var r := Placeholder(sv, image, code, labeling);
      && r.status == Error && r.qtype == MultipleChoice && r.choices == [] && r.answers == []
      && r.text == "Extraction failed: " + code && r.norm == "extraction failed " + code
      && r.hash == sv.digest("error:" + Itoa(image)) && r.tags == {"extraction-failed"}
      && r.verifiedAt.None? && r.verifiedBy.None? && r.embedding.None?
  {
    assert ["extraction-failed"][0] == "extraction-failed";
  }

  // Two statements; the link is skipped when the insert is refused, for its labeling or its hash.
  function AfterFailure(
    db: DB, id: QuestionId, session: SessionId, image: ImageId, row: Row, labeling: string): DB {
    if LabelingOf(labeling).None? || HashTaken(db.rows, row.hash) then db
    else
      var stored := row.(labeling := LabelingOf(labeling).value);
      InsertLink(Insert(db, id, stored), Link(session, image, id), LinkInfo(0, 0.0))
  }

  // Create and link the placeholder. The labeling is a parameter here; the pipeline leaves it empty.
  method StorePlaceholder(
    repo: QuestionRepo, row: Row, session: SessionId, image: ImageId, labeling: string)
    returns (ghost id: QuestionId)
    requires row.tags == TagSet(["extraction-failed"])
    modifies repo`rows, repo`links
    ensures id !in old(repo.rows)
    ensures repo.State() == AfterFailure(old(repo.State()), id, session, image, row, labeling)
  {
    var r := repo.Create(row, labeling, ["extraction-failed"]);
    match r {
      case Err(_) =>
        id := FreshId(repo.rows.Keys);
      case Ok(created) =>
        id := created;
        var linked := repo.LinkToSession(Link(session, image, created), LinkInfo(0, 0.0));
    }
  }

  // The question is built without a labeling, which the column's CHECK refuses: nothing is stored.
  method HandleExtractionFailure(
    repo: QuestionRepo, sv: Services, session: SessionId, image: ImageId, code: string)
    modifies repo`rows, repo`links
    ensures repo.State() == old(repo.State())
  {
    ghost var id := StorePlaceholder(repo, Placeholder(sv, image, code, Letter), session, image, "");
  }

  ghost predicate PlaceholderLinked(db: DB, session: SessionId, image: ImageId, h: Hash) {
    exists q :: Link(session, image, q) in db.links && q in db.rows && db.rows[q].hash == h
  }

  // After the failure handler the placeholder is linked exactly when its labeling is one the column
  // admits and its hash was free before, or it had been linked already.
  lemma {:induction false} PlaceholderLinkedIff(
    db: DB, id: QuestionId, session: SessionId, image: ImageId, row: Row, labeling: string)
    requires Inv(db) && JobOk(db, session, image) && id !in db.rows
    ensures PlaceholderLinked(AfterFailure(db, id, session, image, row, labeling), session, image, row.hash) <==>
      ((LabelingOf(labeling).Some? && !HashTaken(db.rows, row.hash)) ||
       PlaceholderLinked(db, session, image, row.hash))
  {
    if LabelingOf(labeling).Some? && !HashTaken(db.rows, row.hash) {
      var after := AfterFailure(db, id, session, image, row, labeling);
      var stored := row.(labeling := LabelingOf(labeling).value);
      assert LinkAllowed(Insert(db, id, stored), Link(session, image, id));
      assert Link(session, image, id) in after.links && after.rows[id].hash == row.hash;
    }
  }

  // With a labeling filled in, a run cut off between the two statements would still not be repaired by
  // running the handler again.
  lemma {:induction false} CutOffPlaceholderStaysUnlinked(
    db: DB, id: QuestionId, again: QuestionId, session: SessionId, image: ImageId, row: Row, labeling: string)
    requires Inv(db) && JobOk(db, session, image) && !HashTaken(db.rows, row.hash)
    requires LabelingOf(labeling).Some?
    requires id !in db.rows && RowOk(row) && again !in Insert(db, id, row).rows
    ensures PlaceholderLinked(AfterFailure(db, id, session, image, row, labeling), session, image, row.hash)
    ensures var cut := Insert(db, id, row);
      !PlaceholderLinked(AfterFailure(cut, again, session, image, row, labeling), session, image, row.hash)
  {
    PlaceholderLinkedIff(db, id, session, image, row, labeling);
    var cut := Insert(db, id, row);
    assert id in cut.rows && cut.rows[id].hash == row.hash;
    forall q | Link(session, image, q) in db.links ensures q in db.rows {
      assert LinkOk(db, Link(session, image, q));
    }
  }
}
