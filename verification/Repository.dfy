/** The question repository as an object over its tables. Each method is one statement or one
    transaction; its contract ties the new tables to the statement's function on the old ones. */
module Repository {
  import opened Wrappers
  import opened Ids
  import opened Questions

  datatype RepoError = NotFound | Duplicate | CheckViolation | OutOfRange | ForeignKey | InUse

  // Cosine distance is supplied by the vector extension; maxDistance is 1 - threshold.
  datatype Metric = Metric(distance: (Vec, Vec) -> real, maxDistance: real)

  predicate Candidate(m: Metric, r: Row, v: Vec) {
    r.embedding.Some? && m.distance(r.embedding.value, v) <= m.maxDistance
  }

  // ORDER BY distance, with the smaller digest first among equal distances.
  predicate NoFarther(m: Metric, a: Row, b: Row, v: Vec)
    requires Candidate(m, a, v) && Candidate(m, b, v)
  {
    var x, y := m.distance(a.embedding.value, v), m.distance(b.embedding.value, v);
    x < y || (x == y && a.hash <= b.hash)
  }

  predicate IsNearest(m: Metric, rows: Rows, v: Vec, id: QuestionId) {
    && id in rows && Candidate(m, rows[id], v)
    && forall k :: k in rows && Candidate(m, rows[k], v) ==> NoFarther(m, rows[id], rows[k], v)
  }

  lemma {:induction false} NearestAmong(m: Metric, rows: Rows, v: Vec, ids: set<QuestionId>)
    returns (id: QuestionId)
    requires ids != {} && forall k :: k in ids ==> k in rows && Candidate(m, rows[k], v)
    ensures id in ids && id in rows && Candidate(m, rows[id], v)
    ensures forall k :: k in ids ==> NoFarther(m, rows[id], rows[k], v)
    decreases ids
  {
    var x :| x in ids;
    id := x;
    if ids != {x} {
      assert forall k :: k in ids ==> k == x || k in ids - {x};
      var y := NearestAmong(m, rows, v, ids - {x});
      if !NoFarther(m, rows[x], rows[y], v) {
        id := y;
      }
    }
  }

  // An expert's update, column by column.
  predicate EditedBy(was: Row, is_: Row, u: Update, expert: UserId, now: int) {
    && is_.answers == u.answers && is_.choices == u.choices && is_.explanation == u.explanation
    && is_.confidence == u.confidence && is_.status == u.status
    && is_.verifiedAt == (if u.status == Verified then Some(now) else None)
    && is_.verifiedBy == (if u.status == Verified then Some(expert) else None)
    && is_.qtype == (if u.qtype.Some? then u.qtype.value else was.qtype)
    && is_.tags == (set t | t in u.tags)
    && is_.number == was.number && is_.text == was.text && is_.norm == was.norm && is_.hash == was.hash
    && is_.labeling == was.labeling && is_.embedding == was.embedding
  }

  // An import over an existing row, column by column.
  predicate MergedFrom(was: Row, is_: Row, q: Row, tags: seq<string>, now: int) {
    && is_.text == q.text && is_.choices == q.choices && is_.answers == q.answers
    && is_.explanation == q.explanation && is_.confidence == q.confidence && is_.qtype == q.qtype
    && is_.status == Verified && is_.verifiedAt == Some(now) && is_.verifiedBy == q.verifiedBy
    && is_.embedding == (if q.embedding.Some? then q.embedding else was.embedding)
    && is_.tags == (set t | t in tags)
    && is_.number == was.number && is_.norm == was.norm && is_.hash == was.hash && is_.labeling == was.labeling
  }

  class QuestionRepo {
    var sessions: map<SessionId, UserId>
    var images: Images
    var rows: Rows
    var links: Links

    ghost function State(): DB
      reads this
    {
      DB(sessions, images, rows, links)
    }

    constructor ()
      ensures State() == DB(map[], map[], map[], map[])
    {
      sessions, images, rows, links := map[], map[], map[], map[];
    }

    // DELETE of the question's tag links has happened; insert them one at a time.
    method LinkTags(id: QuestionId, tags: seq<string>)
      requires id in rows && rows[id].tags == {}
      modifies this`rows
      ensures rows == old(rows)[id := old(rows)[id].(tags := TagSet(tags))]
    {
      assert TagSet(tags[..0]) == {};
      for i := 0 to |tags|
        invariant rows == old(rows)[id := old(rows)[id].(tags := TagSet(tags[..i]))]
      {
        assert tags[..i + 1] == tags[..i] + [tags[i]];
        assert TagSet(tags[..i + 1]) == TagSet(tags[..i]) + {tags[i]};
        rows := rows[id := rows[id].(tags := rows[id].tags + {tags[i]})];
      }
      assert tags[..|tags|] == tags;
    }

    // INSERT into questions, then one tag link per tag. The labeling arrives as text.
    method Create(q: Row, labeling: string, tags: seq<string>) returns (r: Result<QuestionId, RepoError>)
      modifies this`rows
      ensures r.Ok? <==> LabelingOf(labeling).Some? && !HashTaken(old(rows), q.hash)
      ensures r.Err? ==> rows == old(rows)
      ensures r.Err? ==> r.error == if LabelingOf(labeling).None? then CheckViolation else Duplicate
      ensures r.Ok? ==>
        var row := q.(labeling := LabelingOf(labeling).value, tags := TagSet(tags));
        && r.value !in old(rows) && rows == old(rows)[r.value := row]
        && State() == Insert(old(State()), r.value, row)
    {
      var checked := LabelingOf(labeling);
      if checked.None? {
        return Err(CheckViolation);
      }
      if id :| id in rows && rows[id].hash == q.hash {
        return Err(Duplicate);
      }
      var id := FreshId(rows.Keys);
      rows := rows[id := q.(labeling := checked.value, tags := {})];
      LinkTags(id, tags);
      r := Ok(id);
    }

    method LinkToSession(l: Link, info: LinkInfo) returns (r: Result<(), RepoError>)
      modifies this`links
      ensures State() == InsertLink(old(State()), l, info)
      ensures r.Ok? <==> l.session in sessions && l.image in images && l.question in rows
      ensures r.Err? ==> r.error == ForeignKey
      ensures r.Ok? ==> links == if l in old(links) then old(links) else old(links)[l := info]
      ensures r.Ok? ==> l in links
    {
      if l.session !in sessions || l.image !in images || l.question !in rows {
        return Err(ForeignKey);
      }
      if l !in links {
        links := links[l := info];
      }
      r := Ok(());
    }

    method FindExact(hash: Hash) returns (r: Option<QuestionId>)
      requires UniqueHashes(rows)
      ensures r == IdOf(rows, hash)
    {
      if id :| id in rows && rows[id].hash == hash {
        r := Some(id);
      } else {
        r := None;
      }
    }

    method FindSemantic(m: Metric, v: Vec) returns (r: Option<QuestionId>)
      ensures r.Some? ==> IsNearest(m, rows, v, r.value)
      ensures r.None? ==> forall k :: k in rows ==> !Candidate(m, rows[k], v)
      // within the threshold, boundary included, and as near as any
      ensures r.Some? ==>
        && r.value in rows && rows[r.value].embedding.Some?
        && m.distance(rows[r.value].embedding.value, v) <= m.maxDistance
        && forall k :: k in rows && rows[k].embedding.Some? ==>
          m.distance(rows[r.value].embedding.value, v) <= m.distance(rows[k].embedding.value, v)
      ensures r.None? ==> forall k :: k in rows && rows[k].embedding.Some? ==>
        m.distance(rows[k].embedding.value, v) > m.maxDistance
    {
      var ids := set k | k in rows && Candidate(m, rows[k], v);
      if ids == {} {
        assert forall k :: k in rows && Candidate(m, rows[k], v) ==> k in ids;
        r := None;
      } else {
        ghost var nearest := NearestAmong(m, rows, v, ids);
        assert IsNearest(m, rows, v, nearest);
        var id :| id in rows && IsNearest(m, rows, v, id);
        r := Some(id);
      }
    }

    method UpdateFromVerification(id: QuestionId, answers: seq<string>, confidence: real, explanation: string)
      returns (r: Result<(), RepoError>)
      modifies this`rows
      ensures State() == WriteVerification(old(State()), id, answers, confidence, explanation)
      ensures r.Ok? <==> id in old(rows) && -9.995 < confidence < 9.995
      ensures r.Ok? ==> rows == old(rows)[id :=
        old(rows)[id].(answers := answers, confidence := confidence, explanation := explanation)]
      ensures r.Err? ==> r.error == if id in old(rows) then OutOfRange else NotFound
    {
      if id !in rows {
        return Err(NotFound);
      }
      if !ConfidenceFits(confidence) {
        return Err(OutOfRange);
      }
      rows := rows[id := rows[id].(answers := answers, confidence := confidence, explanation := explanation)];
      r := Ok(());
    }

    method CountUnresolvedForImage(image: ImageId) returns (n: nat)
      ensures n == 0 <==> !Unresolved(rows, links, image)
    {
      var siblings := set l |
        l in links && l.image == image && l.question in rows && !rows[l.question].status.Verified?;
      n := |siblings|;
      if l :| l in links && l.image == image && l.question in rows && !rows[l.question].status.Verified? {
        assert l in siblings;
      } else {
        assert siblings == {};
      }
    }

    // For each distinct linked image: count the siblings still in moderation or error, and null the
    // bytes when there is none.
    method CleanupImageBytes(id: QuestionId)
      modifies this`images
      ensures images == CleanImages(old(images), rows, links, id)
    {
      ghost var linked := set l | l in links && l.question == id :: l.image;
      var todo := set l | l in links && l.question == id :: l.image;
      while todo != {}
        invariant todo <= linked
        invariant images.Keys == old(images).Keys
        invariant forall i :: i in images && i in linked - todo && !Unresolved(rows, links, i) ==>
          images[i] == NoBytes(old(images)[i])
        invariant forall i :: i in images && !(i in linked - todo && !Unresolved(rows, links, i)) ==>
          images[i] == old(images)[i]
        decreases todo
      {
        var i :| i in todo;
        var unresolved := CountUnresolvedForImage(i);
        if unresolved == 0 && i in images {
          images := images[i := images[i].(original := None, enhanced := None)];
        }
        todo := todo - {i};
      }
      assert forall i :: LinkedTo(links, i, id) <==> i in linked;
    }

    method UpdateByExpert(id: QuestionId, u: Update, expert: UserId, now: int)
      returns (r: Result<(), RepoError>)
      modifies this`rows, this`images
      ensures State() == ExpertUpdate(old(State()), id, u, expert, now)
      ensures r.Ok? <==> id in old(rows) && -9.995 < u.confidence < 9.995
      ensures r.Err? ==> r.error == if id in old(rows) then OutOfRange else NotFound
      ensures r.Err? ==> rows == old(rows) && images == old(images)
      ensures r.Ok? ==> id in rows && EditedBy(old(rows)[id], rows[id], u, expert, now)
      ensures r.Ok? ==> rows.Keys == old(rows).Keys && forall k :: k in rows && k != id ==> rows[k] == old(rows)[k]
    {
      if id !in rows {
        return Err(NotFound);
      }
      if !ConfidenceFits(u.confidence) {
        return Err(OutOfRange);
      }
      var verified := u.status.Verified?;
      var row := rows[id];
      rows := rows[id := row.(
        answers := u.answers, choices := u.choices, explanation := u.explanation, confidence := u.confidence,
        status := u.status, verifiedAt := if verified then Some(now) else None,
        verifiedBy := if verified then Some(expert) else None,
        qtype := if u.qtype.None? then row.qtype else u.qtype.value,
        tags := {})];
      LinkTags(id, u.tags);
      assert rows == old(rows)[id := ExpertRow(row, u, expert, now)];
      CleanupImageBytes(id);
      r := Ok(());
    }

    // One transaction: insert or overwrite by hash, then delete and reinsert the tags.
    method UpsertFromImport(q: Row, tags: seq<string>, now: int)
      returns (created: bool, ghost newId: QuestionId)
      requires UniqueHashes(rows)
      modifies this`rows
      ensures newId !in old(rows)
      ensures State() == Upsert(old(State()), newId, q.(tags := TagSet(tags)), now)
      ensures created <==> !HashTaken(old(rows), q.hash)
      ensures created ==> rows.Keys == old(rows).Keys + {newId} && rows[newId] == q.(tags := set t | t in tags)
      ensures !created ==> rows.Keys == old(rows).Keys
      ensures !created ==> forall id :: id in rows && rows[id].hash == q.hash ==>
        MergedFrom(old(rows)[id], rows[id], q, tags, now)
      ensures forall id :: id in old(rows) && old(rows)[id].hash != q.hash ==> rows[id] == old(rows)[id]
    {
      var candidate := FreshId(rows.Keys);
      newId := candidate;
      var found := FindExact(q.hash);
      var id;
      match found {
        case Some(existing) =>
          id := existing;
          var prior := rows[id];
          rows := rows[id := prior.(
            text := q.text, choices := q.choices, answers := q.answers, explanation := q.explanation,
            confidence := q.confidence, qtype := q.qtype, status := Verified,
            verifiedAt := Some(now), verifiedBy := q.verifiedBy,
            embedding := if q.embedding.None? then prior.embedding else q.embedding,
            tags := {})];
        case None =>
          id := candidate;
          rows := rows[id := q.(tags := {})];
      }
      LinkTags(id, tags);
      created := found.None?;
    }

    method Delete(id: QuestionId) returns (r: Result<(), RepoError>)
      modifies this`rows, this`links
      ensures State() == DeleteQuestion(old(State()), id)
      ensures r.Ok? ==> id in old(rows)
      ensures r.Ok? ==> old(rows)[id].status == Error || forall l :: l in old(links) ==> l.question != id
      ensures r == Err(InUse) ==> id in old(rows) && old(rows)[id].status != Error
      ensures r == Err(InUse) ==> exists l :: l in old(links) && l.question == id
      ensures r.Ok? ==> rows == old(rows) - {id}
      ensures r.Ok? ==> forall l :: l in links <==> l in old(links) && l.question != id
      ensures r.Ok? ==> forall l :: l in links ==> links[l] == old(links)[l]
      ensures r == if id !in old(rows) then Err(NotFound)
                   else if !DeleteAllowed(old(State()), id) then Err(InUse) else Ok(())
    {
      if id !in rows {
        return Err(NotFound);
      }
      var linked := set l | l in links && l.question == id;
      assert |linked| == 0 <==> forall l :: l in links ==> l.question != id by {
        assert forall l :: l in links && l.question == id <==> l in linked;
      }
      if |linked| > 0 && !rows[id].status.Error? {
        return Err(InUse);
      }
      rows := rows - {id};
      links := map l | l in links && l.question != id :: links[l];
      r := Ok(());
    }
  }
}
