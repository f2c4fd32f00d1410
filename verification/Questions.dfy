/** The canonical question store: sessions, images, questions and the session_questions links,
    with the statements every writer issues. One statement, or one transaction, is one atomic step.
    question_hash is the digest read as a number. */
module Questions {
  import opened Wrappers

  type UserId = nat
  type SessionId = nat
  type ImageId = nat
  type QuestionId = nat
  type Hash = nat
  type Bytes = seq<bv8>
  type Vec = seq<real>

  datatype Status = Moderation | Verified | Error
  datatype Labeling = Letter | Number
  // choice_labeling as text; the column's CHECK admits these two values only.
  function LabelingText(l: Labeling): string {
    match l
    case Letter => "letter"
    case Number => "number"
  }

  function LabelingOf(s: string): (l: Option<Labeling>)
    ensures l == Some(Letter) <==> s == "letter"
    ensures l == Some(Number) <==> s == "number"
    ensures l.Some? ==> LabelingText(l.value) == s
  {
    if s == "letter" then Some(Letter) else if s == "number" then Some(Number) else None
  }

  datatype QuestionType = MultipleChoice | FreeResponse

  datatype Row = Row(
    number: int, text: string, norm: string, hash: Hash, choices: seq<string>, answers: seq<string>,
    labeling: Labeling, qtype: QuestionType, confidence: real, explanation: string,
    embedding: Option<Vec>, status: Status, verifiedAt: Option<int>, verifiedBy: Option<UserId>,
    tags: set<string>)

  datatype Image = Image(session: SessionId, original: Option<Bytes>, enhanced: Option<Bytes>)

  datatype Link = Link(session: SessionId, image: ImageId, question: QuestionId)

  datatype LinkInfo = LinkInfo(number: int, confidence: real)

  type Rows = map<QuestionId, Row>
  type Images = map<ImageId, Image>
  type Links = map<Link, LinkInfo>

  datatype DB = DB(sessions: map<SessionId, UserId>, images: Images, rows: Rows, links: Links)

  datatype Update = Update(
    status: Status, choices: seq<string>, answers: seq<string>, explanation: string,
    tags: seq<string>, confidence: real, qtype: Option<QuestionType>)

  /* ---- lookups ---- */

  predicate HashTaken(rows: Rows, h: Hash) {
    exists id :: id in rows && rows[id].hash == h
  }

  predicate UniqueHashes(rows: Rows) {
    forall i, j :: i in rows && j in rows && rows[i].hash == rows[j].hash ==> i == j
  }

  ghost function IdOf(rows: Rows, h: Hash): (r: Option<QuestionId>)
    ensures r.Some? <==> HashTaken(rows, h)
    ensures r.Some? ==> r.value in rows && rows[r.value].hash == h
  {
    if id :| id in rows && rows[id].hash == h then Some(id) else None
  }

  lemma {:induction false} IdOfHash(rows: Rows, id: QuestionId)
    requires UniqueHashes(rows) && id in rows
    ensures IdOf(rows, rows[id].hash) == Some(id)
  {
    assert HashTaken(rows, rows[id].hash);
  }

  predicate LinkedTo(links: Links, image: ImageId, q: QuestionId) {
    exists l :: l in links && l.image == image && l.question == q
  }

  // The sibling count of cleanupImageBytesTx is not zero.
  predicate Unresolved(rows: Rows, links: Links, image: ImageId) {
    exists l :: l in links && l.image == image && l.question in rows && !rows[l.question].status.Verified?
  }

  function TagSet(tags: seq<string>): set<string> {
    set t | t in tags
  }

  /* ---- statements ---- */

  function ExpertRow(r: Row, u: Update, expert: UserId, now: int): Row {
    r.(answers := u.answers, choices := u.choices, explanation := u.explanation,
       confidence := u.confidence, status := u.status,
       verifiedAt := if u.status.Verified? then Some(now) else None,
       verifiedBy := if u.status.Verified? then Some(expert) else None,
       qtype := if u.qtype.Some? then u.qtype.value else r.qtype,
       tags := TagSet(u.tags))
  }

  // ON CONFLICT DO UPDATE: number, norm and labeling are not in the SET list.
  function MergeRow(r: Row, q: Row, now: int): Row {
    r.(text := q.text, choices := q.choices, answers := q.answers, explanation := q.explanation,
       confidence := q.confidence, qtype := q.qtype, status := Verified,
       verifiedAt := Some(now), verifiedBy := q.verifiedBy,
       embedding := if q.embedding.Some? then q.embedding else r.embedding,
       tags := q.tags)
  }

  function NoBytes(image: Image): Image {
    image.(original := None, enhanced := None)
  }

  function CleanImages(images: Images, rows: Rows, links: Links, q: QuestionId): Images {
    map i | i in images ::
      if LinkedTo(links, i, q) && !Unresolved(rows, links, i) then NoBytes(images[i]) else images[i]
  }

  function Insert(db: DB, id: QuestionId, row: Row): DB {
    if HashTaken(db.rows, row.hash) then db else db.(rows := db.rows[id := row])
  }

  // Foreign keys reject a link to a missing session, image or question.
  predicate LinkAllowed(db: DB, l: Link) {
    l.session in db.sessions && l.image in db.images && l.question in db.rows
  }

  function InsertLink(db: DB, l: Link, info: LinkInfo): DB {
    if !LinkAllowed(db, l) || l in db.links then db else db.(links := db.links[l := info])
  }

  // The column is numeric(3,2): a value that rounds to 10.00 or more is an error.
  predicate ConfidenceFits(c: real) {
    -9.995 < c < 9.995
  }

  function WriteVerification(db: DB, id: QuestionId, answers: seq<string>, confidence: real, explanation: string): DB {
    if id !in db.rows || !ConfidenceFits(confidence) then db
    else db.(rows := db.rows[id :=
      db.rows[id].(answers := answers, confidence := confidence, explanation := explanation)])
  }

  predicate UpdateAllowed(db: DB, id: QuestionId, u: Update) {
    id in db.rows && ConfidenceFits(u.confidence)
  }

  function ExpertUpdate(db: DB, id: QuestionId, u: Update, expert: UserId, now: int): DB {
    if !UpdateAllowed(db, id, u) then db
    else
      var rows := db.rows[id := ExpertRow(db.rows[id], u, expert, now)];
      db.(rows := rows, images := CleanImages(db.images, rows, db.links, id))
  }

  ghost function Upsert(db: DB, newId: QuestionId, q: Row, now: int): DB {
    match IdOf(db.rows, q.hash)
    case Some(id) => db.(rows := db.rows[id := MergeRow(db.rows[id], q, now)])
    case None => db.(rows := db.rows[newId := q])
  }

  predicate DeleteAllowed(db: DB, id: QuestionId) {
    id in db.rows && (db.rows[id].status.Error? || forall l :: l in db.links ==> l.question != id)
  }

  function DeleteQuestion(db: DB, id: QuestionId): DB {
    if DeleteAllowed(db, id)
    then db.(rows := db.rows - {id}, links := map l | l in db.links && l.question != id :: db.links[l])
    else db
  }

  // DELETE FROM users: sessions, images and links cascade; verified_by is set to NULL.
  function DeleteUser(db: DB, u: UserId): DB {
    var sessions := map s | s in db.sessions && db.sessions[s] != u :: db.sessions[s];
    var images := map i | i in db.images && db.images[i].session in sessions :: db.images[i];
    DB(sessions, images,
       map q | q in db.rows ::
         if db.rows[q].verifiedBy == Some(u) then db.rows[q].(verifiedBy := None) else db.rows[q],
       map l | l in db.links && l.session in sessions && l.image in images :: db.links[l])
  }

  /* ---- the store invariant ---- */

  predicate RowOk(r: Row) {
    && (r.verifiedAt.Some? <==> r.status.Verified?)
    && (r.verifiedBy.Some? ==> r.status.Verified?)
  }

  predicate LinkOk(db: DB, l: Link) {
    && LinkAllowed(db, l)
    && db.images[l.image].session == l.session
  }

  predicate RowsOk(rows: Rows) {
    (forall id :: id in rows ==> RowOk(rows[id])) && UniqueHashes(rows)
  }

  predicate LinksOk(db: DB) {
    && (forall i :: i in db.images ==> db.images[i].session in db.sessions)
    && (forall l :: l in db.links ==> LinkOk(db, l))
  }

  predicate Inv(db: DB) {
    RowsOk(db.rows) && LinksOk(db)
  }

  /* ---- every writer, as one event ---- */

  datatype Write =
    | OpenSession(session: SessionId, user: UserId)
    | Upload(image: ImageId, session: SessionId, bytes: Bytes)
    | SetEnhanced(image: ImageId, bytes: Bytes)
    | Create(id: QuestionId, row: Row)
    | LinkTo(link: Link, info: LinkInfo)
    | Verification(id: QuestionId, answers: seq<string>, confidence: real, explanation: string)
    | Expert(id: QuestionId, update: Update, expert: UserId, now: int)
    | Import(id: QuestionId, row: Row, now: int)
    | Delete(id: QuestionId)
    | RemoveUser(user: UserId)

  // What the callers guarantee: fresh ids, rows built with consistent verification fields, and
  // jobs that carry the session their image was uploaded to.
  predicate Enabled(db: DB, w: Write) {
    match w
    case OpenSession(s, _) => s !in db.sessions
    case Upload(i, s, _) => i !in db.images && s in db.sessions
    case Create(id, row) => id !in db.rows && RowOk(row)
    case Import(id, row, _) => id !in db.rows && RowOk(row)
    case LinkTo(l, _) => l.image in db.images ==> db.images[l.image].session == l.session
    case _ => true
  }

  ghost function Apply(db: DB, w: Write): DB {
    match w
    case OpenSession(s, u) => db.(sessions := db.sessions[s := u])
    case Upload(i, s, bytes) => db.(images := db.images[i := Image(s, Some(bytes), None)])
    case SetEnhanced(i, bytes) =>
      if i in db.images then db.(images := db.images[i := db.images[i].(enhanced := Some(bytes))]) else db
    case Create(id, row) => Insert(db, id, row)
    case LinkTo(l, info) => InsertLink(db, l, info)
    case Verification(id, answers, confidence, explanation) =>
      WriteVerification(db, id, answers, confidence, explanation)
    case Expert(id, u, expert, now) => ExpertUpdate(db, id, u, expert, now)
    case Import(id, row, now) => Upsert(db, id, row, now)
    case Delete(id) => DeleteQuestion(db, id)
    case RemoveUser(u) => DeleteUser(db, u)
  }

  // A session, an upload and an enhancement add exactly what they are given.
  lemma {:induction false} UploadsExact(db: DB, w: Write)
    requires w.OpenSession? || w.Upload? || w.SetEnhanced?
    ensures var next := Apply(db, w);
      && next.rows == db.rows && next.links == db.links
      && next.sessions == (if w.OpenSession? then db.sessions[w.session := w.user] else db.sessions)
      && (forall i :: i in next.images <==> i in db.images || (w.Upload? && i == w.image))
      && (forall i :: i in db.images && (w.OpenSession? || i != w.image) ==> next.images[i] == db.images[i])
      && (w.Upload? ==>
        && next.images[w.image].session == w.session && next.images[w.image].original == Some(w.bytes)
        && next.images[w.image].enhanced == None)
      && (w.SetEnhanced? && w.image in db.images ==>
        && next.images[w.image].enhanced == Some(w.bytes)
        && next.images[w.image].original == db.images[w.image].original
        && next.images[w.image].session == db.images[w.image].session)
  {
  }

  // Deleting a user deletes the user's sessions, their images and the links to those, and takes the user's
  // name off the questions; everything else stays.
  lemma {:induction false} RemoveUserExact(db: DB, u: UserId)
    requires LinksOk(db)
    ensures var next := DeleteUser(db, u);
      && (forall s :: s in next.sessions <==> s in db.sessions && db.sessions[s] != u)
      && (forall s :: s in next.sessions ==> next.sessions[s] == db.sessions[s])
      && (forall i :: i in next.images <==> i in db.images && db.sessions[db.images[i].session] != u)
      && (forall i :: i in next.images ==> next.images[i] == db.images[i])
      && (forall l :: l in next.links <==> l in db.links && db.sessions[l.session] != u)
      && (forall l :: l in next.links ==> next.links[l] == db.links[l])
      && next.rows.Keys == db.rows.Keys
      && (forall q :: q in db.rows ==>
        next.rows[q] == db.rows[q].(verifiedBy := next.rows[q].verifiedBy)
        && next.rows[q].verifiedBy == (if db.rows[q].verifiedBy == Some(u) then None else db.rows[q].verifiedBy))
  {
    assert forall l :: l in db.links ==> LinkOk(db, l);
  }

  // No write moves an image to another session; only an upload adds one.
  lemma {:induction false} SessionsFixed(db: DB, w: Write)
    ensures forall i :: i in Apply(db, w).images ==>
      if w.Upload? && i == w.image then Apply(db, w).images[i].session == w.session
      else i in db.images && Apply(db, w).images[i].session == db.images[i].session
  {
    match w
    case Expert(id, u, expert, now) => assert Apply(db, w).images.Keys == db.images.Keys;
    case RemoveUser(u) => assert Apply(db, w).images.Keys <= db.images.Keys;
    case _ =>
  }

  // Only the two removals take anything away, and none gives a row another hash.
  lemma {:induction false} RowsStay(db: DB, w: Write)
    requires Enabled(db, w) && !w.Delete?
    ensures forall id :: id in db.rows ==> id in Apply(db, w).rows && Apply(db, w).rows[id].hash == db.rows[id].hash
  {
    match w
    case Import(id, row, now) =>
    case _ =>
  }

  lemma {:induction false} LinksStay(db: DB, w: Write)
    requires !w.Delete? && !w.RemoveUser?
    ensures forall l :: l in db.links ==> l in Apply(db, w).links
    ensures db.images.Keys <= Apply(db, w).images.Keys && db.sessions.Keys <= Apply(db, w).sessions.Keys
  {
    match w
    case LinkTo(l, info) =>
    case _ =>
  }

  ghost predicate Legal(db: DB, ws: seq<Write>)
    decreases |ws|
  {
    ws == [] || (Enabled(db, ws[0]) && Legal(Apply(db, ws[0]), ws[1..]))
  }

  ghost function After(db: DB, ws: seq<Write>): DB
    decreases |ws|
  {
    if ws == [] then db else After(Apply(db, ws[0]), ws[1..])
  }

  // Only a removal can take away what a link refers to.
  lemma {:induction false} LinksSurvive(db: DB, next: DB)
    requires LinksOk(db)
    requires next.sessions.Keys >= db.sessions.Keys && next.images.Keys >= db.images.Keys
    requires next.rows.Keys >= db.rows.Keys && next.links == db.links
    requires forall i :: i in next.images ==>
      if i in db.images then next.images[i].session == db.images[i].session
      else next.images[i].session in db.sessions
    ensures LinksOk(next)
  {
    assert forall l :: l in db.links ==> LinkOk(db, l);
  }

  lemma {:induction false} ExpertKeepsLinks(db: DB, id: QuestionId, u: Update, expert: UserId, now: int)
    requires LinksOk(db)
    ensures LinksOk(ExpertUpdate(db, id, u, expert, now))
  {
    LinksSurvive(db, ExpertUpdate(db, id, u, expert, now));
  }

  lemma {:induction false} LinkKeepsLinks(db: DB, l: Link, info: LinkInfo)
    requires LinksOk(db) && Enabled(db, LinkTo(l, info))
    ensures LinksOk(InsertLink(db, l, info))
  {
    var next := InsertLink(db, l, info);
    forall k | k in next.links ensures LinkOk(next, k) {
      assert k in db.links ==> LinkOk(db, k);
    }
  }

  lemma {:induction false} RemoveUserKeepsLinks(db: DB, u: UserId)
    requires LinksOk(db)
    ensures LinksOk(DeleteUser(db, u))
  {
    var next := DeleteUser(db, u);
    forall l | l in next.links ensures LinkOk(next, l) {
      assert l in db.links && LinkOk(db, l);
    }
  }

  lemma {:induction false} DeleteKeepsLinks(db: DB, id: QuestionId)
    requires LinksOk(db)
    ensures LinksOk(DeleteQuestion(db, id))
  {
    var next := DeleteQuestion(db, id);
    forall l | l in next.links ensures LinkOk(next, l) {
      assert l in db.links && LinkOk(db, l);
    }
  }

  lemma {:induction false} ApplyKeepsLinks(db: DB, w: Write)
    requires Inv(db) && Enabled(db, w)
    ensures LinksOk(Apply(db, w))
  {
    match w
    case LinkTo(l, info) => LinkKeepsLinks(db, l, info);
    case Delete(id) => DeleteKeepsLinks(db, id);
    case RemoveUser(u) => RemoveUserKeepsLinks(db, u);
    case Expert(id, u, expert, now) => ExpertKeepsLinks(db, id, u, expert, now);
    case Import(id, row, now) => LinksSurvive(db, Upsert(db, id, row, now));
    case _ => LinksSurvive(db, Apply(db, w));
  }

  lemma {:induction false} ReplaceKeepsRows(rows: Rows, id: QuestionId, row: Row)
    requires RowsOk(rows) && RowOk(row)
    requires if id in rows then row.hash == rows[id].hash else !HashTaken(rows, row.hash)
    ensures RowsOk(rows[id := row])
  {
  }

  lemma {:induction false} ApplyKeepsRows(db: DB, w: Write)
    requires RowsOk(db.rows) && Enabled(db, w)
    ensures RowsOk(Apply(db, w).rows)
  {
    match w
    case Create(id, row) =>
      if !HashTaken(db.rows, row.hash) {
        ReplaceKeepsRows(db.rows, id, row);
      }
    case Verification(id, a, c, x) =>
      if id in db.rows && ConfidenceFits(c) {
        ReplaceKeepsRows(db.rows, id, db.rows[id].(answers := a, confidence := c, explanation := x));
      }
    case Expert(id, u, expert, now) =>
      if UpdateAllowed(db, id, u) {
        ReplaceKeepsRows(db.rows, id, ExpertRow(db.rows[id], u, expert, now));
      }
    case Import(id, row, now) =>
      match IdOf(db.rows, row.hash) {
        case Some(k) => ReplaceKeepsRows(db.rows, k, MergeRow(db.rows[k], row, now));
        case None => ReplaceKeepsRows(db.rows, id, row);
      }
    case Delete(id) => assert Apply(db, w).rows.Keys <= db.rows.Keys;
    case _ =>
  }

  lemma {:induction false} ApplyKeepsInv(db: DB, w: Write)
    requires Inv(db) && Enabled(db, w)
    ensures Inv(Apply(db, w))
  {
    ApplyKeepsRows(db, w);
    ApplyKeepsLinks(db, w);
  }

  lemma {:induction false} WritersKeepInv(db: DB, ws: seq<Write>)
    requires Inv(db) && Legal(db, ws)
    ensures Inv(After(db, ws))
    decreases |ws|
  {
    if ws != [] {
      ApplyKeepsInv(db, ws[0]);
      WritersKeepInv(Apply(db, ws[0]), ws[1..]);
    }
  }

  /* ---- image bytes ---- */

  predicate HasOriginal(db: DB, i: ImageId) {
    i in db.images && db.images[i].original.Some?
  }

  // Some question is linked to the image and every linked question is verified.
  predicate FullyVerified(db: DB, i: ImageId) {
    && (exists l :: l in db.links && l.image == i)
    && (forall l :: l in db.links && l.image == i ==>
      l.question in db.rows && db.rows[l.question].status.Verified?)
  }

  lemma {:induction false} CleanupExact(db: DB, id: QuestionId, u: Update, expert: UserId, now: int, i: ImageId)
    requires Inv(db) && UpdateAllowed(db, id, u) && i in db.images
    ensures var next := ExpertUpdate(db, id, u, expert, now);
      && i in next.images
      && next.images[i] ==
        (if LinkedTo(db.links, i, id) && FullyVerified(next, i)
         then Image(db.images[i].session, None, None) else db.images[i])
    ensures !u.status.Verified? ==> ExpertUpdate(db, id, u, expert, now).images == db.images
  {
    var next := ExpertUpdate(db, id, u, expert, now);
    assert forall l :: l in db.links ==> LinkOk(db, l);
    if !u.status.Verified? {
      forall k | k in db.images ensures next.images[k] == db.images[k] {
        if l :| l in db.links && l.image == k && l.question == id {
          assert Unresolved(next.rows, next.links, k);
        }
      }
    }
  }

  // One writer makes an image's original bytes vanish only when it is an expert update of a linked
  // question and nothing linked to the image is left in moderation or error.
  lemma {:induction false} BytesVanishOnlyWhenVerified(db: DB, w: Write, i: ImageId)
    requires Inv(db) && Enabled(db, w) && HasOriginal(db, i)
    requires i in Apply(db, w).images && !HasOriginal(Apply(db, w), i)
    ensures w.Expert? && LinkedTo(db.links, i, w.id) && FullyVerified(Apply(db, w), i)
  {
    match w
    case Expert(id, u, expert, now) =>
      if UpdateAllowed(db, id, u) {
        CleanupExact(db, id, u, expert, now, i);
      }
    case _ =>
  }

  lemma {:induction false} PrefixStep(db: DB, ws: seq<Write>, k: nat)
    requires ws != [] && k <= |ws[1..]|
    ensures After(Apply(db, ws[0]), ws[1..][..k]) == After(db, ws[..k + 1])
  {
    assert ws[..k + 1][1..] == ws[1..][..k];
  }

  lemma {:induction false} BytesVanishOverRuns(db: DB, ws: seq<Write>, i: ImageId) returns (n: nat)
    requires Inv(db) && Legal(db, ws) && HasOriginal(db, i)
    requires forall k :: 0 <= k <= |ws| ==> i in After(db, ws[..k]).images
    requires !HasOriginal(After(db, ws), i)
    ensures n < |ws| && ws[n].Expert?
    ensures var before, after := After(db, ws[..n]), After(db, ws[..n + 1]);
      HasOriginal(before, i) && !HasOriginal(after, i) && FullyVerified(after, i)
      && LinkedTo(before.links, i, ws[n].id)
    decreases |ws|
  {
    var next := Apply(db, ws[0]);
    ApplyKeepsInv(db, ws[0]);
    assert ws[..1] == [ws[0]] && ws[..0] == [];
    assert [ws[0]][1..] == [];
    assert After(db, ws[..1]) == next;
    if HasOriginal(next, i) {
      forall k | 0 <= k <= |ws[1..]|
        ensures After(next, ws[1..][..k]) == After(db, ws[..k + 1])
      {
        PrefixStep(db, ws, k);
      }
      var m := BytesVanishOverRuns(next, ws[1..], i);
      PrefixStep(db, ws, m);
      PrefixStep(db, ws, m + 1);
      n := m + 1;
    } else {
      BytesVanishOnlyWhenVerified(db, ws[0], i);
      n := 0;
    }
  }
}
