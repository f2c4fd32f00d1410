/** The import service: parse and validate every row, embed in chunks, then upsert row by row. */
module Importer {
  import opened Wrappers
  import opened Questions
  import opened Drafts
  import opened Repository
  import opened ImportRows
  import opened Upserts

  const EMBED_CHUNK: nat := 100
  const MAX_ROW_ERRORS: nat := 100

  datatype RowError = RowError(row: nat, message: string)

  datatype ImportError = Unreadable(message: string) | TooManyRows

  // A validated question with its 1-based file row number.
  datatype ValidRow = ValidRow(row: nat, draft: Draft)

  // What the embedder answers to the call for the chunk that starts at a position; None is a failure.
  type Replies = (nat, seq<string>) -> Option<seq<Option<Vec>>>

  // What happens to the upsert of each valid row in turn. The context is cancelled once these run out.
  datatype Attempt = Commits(now: int) | Fails(message: string)

  /* ---- the report ---- */

  function Capped(errors: seq<RowError>): (r: seq<RowError>)
    ensures r <= errors && |r| == if |errors| <= 100 then |errors| else 100
  {
    if |errors| <= MAX_ROW_ERRORS then errors else errors[..MAX_ROW_ERRORS]
  }

  lemma {:induction false} CappedSnoc(all: seq<RowError>, x: RowError)
    ensures Capped(all + [x]) == if |Capped(all)| < MAX_ROW_ERRORS then Capped(all) + [x] else Capped(all)
  {
  }

  class Report {
    var totalRows: nat
    var created: nat
    var updated: nat
    var failed: nat
    var errors: seq<RowError>

    // The true count of failed rows, and the first hundred of them.
    ghost predicate Records(all: seq<RowError>)
      reads this
    {
      failed == |all| && errors == Capped(all)
    }

    constructor (n: nat)
      ensures totalRows == n && created == 0 && updated == 0 && Records([])
    {
      totalRows, created, updated, failed, errors := n, 0, 0, 0, [];
    }

    method AddRowError(row: nat, message: string)
      modifies this`failed, this`errors
      ensures failed == old(failed) + 1
      ensures errors ==
        if |old(errors)| < 100 then old(errors) + [RowError(row, message)] else old(errors)
    {
      failed := failed + 1;
      if |errors| < MAX_ROW_ERRORS {
        errors := errors + [RowError(row, message)];
      }
    }
  }

  /* ---- parsing ---- */

  type Parsed = seq<Result<Draft, string>>

  function ParseEach(e: Env, file: seq<seq<string>>): (parsed: Parsed)
    ensures |parsed| == |file|
  {
    seq(|file|, i requires 0 <= i < |file| => ParseRow(e, file[i]))
  }

  function ValidRows(parsed: Parsed): seq<ValidRow> {
    if parsed == [] then []
    else
      var n := |parsed| - 1;
      match parsed[n]
      case Ok(d) => ValidRows(parsed[..n]) + [ValidRow(n + 1, d)]
      case Err(_) => ValidRows(parsed[..n])
  }

  function BadRows(parsed: Parsed): seq<RowError> {
    if parsed == [] then []
    else
      var n := |parsed| - 1;
      match parsed[n]
      case Ok(_) => BadRows(parsed[..n])
      case Err(m) => BadRows(parsed[..n]) + [RowError(n + 1, m)]
  }

  predicate IsValidRow(parsed: Parsed, v: ValidRow) {
    1 <= v.row <= |parsed| && parsed[v.row - 1] == Ok(v.draft)
  }

  predicate IsBadRow(parsed: Parsed, b: RowError) {
    1 <= b.row <= |parsed| && parsed[b.row - 1] == Err(b.message)
  }

  // Every file row is either valid or in error, once, and both lists are in file order.
  lemma {:induction false} EveryRowOnce(parsed: Parsed)
    ensures |ValidRows(parsed)| + |BadRows(parsed)| == |parsed|
    ensures forall k :: 0 <= k < |ValidRows(parsed)| ==> IsValidRow(parsed, ValidRows(parsed)[k])
    ensures forall k :: 0 <= k < |BadRows(parsed)| ==> IsBadRow(parsed, BadRows(parsed)[k])
    ensures forall j, k :: 0 <= j < k < |ValidRows(parsed)| ==> ValidRows(parsed)[j].row < ValidRows(parsed)[k].row
    ensures forall j, k :: 0 <= j < k < |BadRows(parsed)| ==> BadRows(parsed)[j].row < BadRows(parsed)[k].row
  {
    if parsed != [] {
      var init := parsed[..|parsed| - 1];
      EveryRowOnce(init);
      assert forall v :: IsValidRow(init, v) ==> IsValidRow(parsed, v);
      assert forall b :: IsBadRow(init, b) ==> IsBadRow(parsed, b);
      assert forall k :: 0 <= k < |ValidRows(init)| ==> ValidRows(init)[k].row < |parsed|;
      assert forall k :: 0 <= k < |BadRows(init)| ==> BadRows(init)[k].row < |parsed|;
    }
  }

  method ParseAll(e: Env, file: seq<seq<string>>, rep: Report) returns (valid: seq<ValidRow>)
    requires rep.Records([])
    modifies rep`failed, rep`errors
    ensures valid == ValidRows(ParseEach(e, file))
    ensures rep.Records(BadRows(ParseEach(e, file)))
  {
    valid := [];
    ghost var parsed := ParseEach(e, file);
    for i := 0 to |file|
      invariant valid == ValidRows(parsed[..i])
      invariant rep.Records(BadRows(parsed[..i]))
    {
      assert parsed[..i + 1][..i] == parsed[..i];
      var row := ParseRow(e, file[i]);
      assert row == parsed[i];
      match row
      case Ok(d) => valid := valid + [ValidRow(i + 1, d)];
      case Err(m) =>
        CappedSnoc(BadRows(parsed[..i]), RowError(i + 1, m));
        rep.AddRowError(i + 1, m);
    }
    assert parsed[..|file|] == parsed;
  }

  /* ---- embedding ---- */

  function Texts(rows: seq<ValidRow>): seq<string> {
    seq(|rows|, i requires 0 <= i < |rows| => rows[i].draft.row.text)
  }

  function WithVec(v: ValidRow, vec: Option<Vec>): ValidRow {
    v.(draft := v.draft.(row := v.draft.row.(embedding := vec)))
  }

  function WithVecs(rows: seq<ValidRow>, vecs: seq<Option<Vec>>): (out: seq<ValidRow>)
    requires |vecs| == |rows|
    ensures |out| == |rows|
  {
    seq(|rows|, i requires 0 <= i < |rows| => WithVec(rows[i], vecs[i]))
  }

  function ChunkEnd(start: nat, n: nat): nat {
    if start + EMBED_CHUNK > n then n else start + EMBED_CHUNK
  }

  // The reply for the chunk that starts here, when it can be used.
  function ChunkVecs(replies: Replies, rows: seq<ValidRow>, start: nat): (vecs: Option<seq<Option<Vec>>>)
    requires start <= |rows|
    ensures vecs.Some? ==> |vecs.value| == ChunkEnd(start, |rows|) - start
  {
    var chunk := rows[start..ChunkEnd(start, |rows|)];
    var reply := replies(start, Texts(chunk));
    if reply.Some? && |reply.value| == |chunk| then reply else None
  }

  // The rows from a position on, after the chunk loop has gone through them.
  function Embedded(replies: Replies, rows: seq<ValidRow>, start: nat): (out: seq<ValidRow>)
    requires start <= |rows|
    ensures |out| == |rows| - start
    decreases |rows| - start
  {
    if start == |rows| then []
    else
      var end := ChunkEnd(start, |rows|);
      match ChunkVecs(replies, rows, start)
      case None => rows[start..]
      case Some(vecs) => WithVecs(rows[start..end], vecs) + Embedded(replies, rows, end)
  }

  function EmbeddedBy(embedder: Option<Replies>, rows: seq<ValidRow>): (out: seq<ValidRow>)
    ensures |out| == |rows|
  {
    match embedder
    case None => rows
    case Some(replies) => Embedded(replies, rows, 0)
  }

  lemma {:induction false} Associative<T>(a: seq<T>, b: seq<T>, c: seq<T>)
    ensures a + (b + c) == a + b + c
  {
  }

  lemma {:induction false} ChunkStep(
      replies: Replies, rows: seq<ValidRow>, start: nat, vecs: seq<Option<Vec>>, done: seq<ValidRow>)
    requires start < |rows| && ChunkVecs(replies, rows, start) == Some(vecs)
    ensures var end := ChunkEnd(start, |rows|);
      done + Embedded(replies, rows, start)
        == done + WithVecs(rows[start..end], vecs) + Embedded(replies, rows, end)
  {
    var end := ChunkEnd(start, |rows|);
    Associative(done, WithVecs(rows[start..end], vecs), Embedded(replies, rows, end));
  }

  method WriteChunk(valid: array<ValidRow>, start: nat, vecs: seq<Option<Vec>>)
    requires start + |vecs| <= valid.Length
    modifies valid
    ensures valid[..] == old(valid[..start]) + WithVecs(old(valid[start..start + |vecs|]), vecs)
      + old(valid[start + |vecs|..])
  {
    for i := 0 to |vecs|
      invariant forall k :: 0 <= k < valid.Length ==>
        valid[k] == if start <= k < start + i then WithVec(old(valid[k]), vecs[k - start]) else old(valid[k])
    {
      valid[start + i] := WithVec(valid[start + i], vecs[i]);
    }
  }

  // One call: the chunk's texts out, its vectors in.
  method EmbedChunk(
      replies: Replies, valid: array<ValidRow>, start: nat, ghost rows: seq<ValidRow>, ghost done: seq<ValidRow>)
    returns (ok: bool, end: nat)
    requires start < valid.Length == |rows| && |done| == start && valid[..] == done + rows[start..]
    modifies valid
    ensures end == ChunkEnd(start, |rows|)
    ensures ok <==> ChunkVecs(replies, rows, start).Some?
    ensures !ok ==> valid[..] == done + rows[start..]
    ensures ok ==> valid[..] == done + WithVecs(rows[start..end], ChunkVecs(replies, rows, start).value) + rows[end..]
  {
    end := start + EMBED_CHUNK;
    if end > valid.Length {
      end := valid.Length;
    }
    var chunk := valid[start..end];
    assert chunk == valid[..][start..end] == rows[start..end];
    assert valid[..start] == done && valid[end..] == valid[..][end..] == rows[end..];
    var vecs := replies(start, Texts(chunk));
    if vecs.None? || |vecs.value| != |chunk| {
      return false, end;
    }
    WriteChunk(valid, start, vecs.value);
    ok := true;
  }

  // The sequential calls of EmbedAll.
  method EmbedChunks(replies: Replies, valid: array<ValidRow>)
    modifies valid
    ensures valid[..] == Embedded(replies, old(valid[..]), 0)
  {
    var start := 0;
    ghost var rows := valid[..];
    ghost var done := [];
    while start < valid.Length
      invariant start <= valid.Length && |done| == start
      invariant valid[..] == done + rows[start..]
      invariant done + Embedded(replies, rows, start) == Embedded(replies, rows, 0)
    {
      var ok, end := EmbedChunk(replies, valid, start, rows, done);
      if !ok {
        return;
      }
      ghost var vecs := ChunkVecs(replies, rows, start).value;
      ChunkStep(replies, rows, start, vecs, done);
      done := done + WithVecs(rows[start..end], vecs);
      start := end;
    }
  }

  method EmbedAll(embedder: Option<Replies>, valid: array<ValidRow>)
    modifies valid
    ensures valid[..] == EmbeddedBy(embedder, old(valid[..]))
  {
    if embedder.None? || valid.Length == 0 {
      return;
    }
    EmbedChunks(embedder.value, valid);
  }

  // What the embedder answered for the text at one position.
  function VecFor(replies: Replies, rows: seq<ValidRow>, i: nat): Option<Option<Vec>>
    requires i < |rows|
  {
    var start := i - i % EMBED_CHUNK;
    match ChunkVecs(replies, rows, start)
    case Some(vecs) => Some(vecs[i - start])
    case None => None
  }

  lemma {:induction false} ChunkRows(replies: Replies, rows: seq<ValidRow>, from: nat, vecs: seq<Option<Vec>>)
    requires from < |rows| && from % EMBED_CHUNK == 0 && ChunkVecs(replies, rows, from) == Some(vecs)
    ensures forall i: nat :: from <= i < ChunkEnd(from, |rows|) ==>
      VecFor(replies, rows, i) == Some(vecs[i - from])
  {
    forall i: nat | from <= i < ChunkEnd(from, |rows|) ensures VecFor(replies, rows, i) == Some(vecs[i - from]) {
      assert i / EMBED_CHUNK == from / EMBED_CHUNK;
    }
  }

  // The texts of the rows from one position up to another.
  predicate AreTexts(texts: seq<string>, rows: seq<ValidRow>, start: nat, end: nat)
    requires start <= end <= |rows|
  {
    |texts| == end - start && forall j :: 0 <= j < |texts| ==> texts[j] == rows[start + j].draft.row.text
  }

  // The chunk of a hundred that holds position i was sent with its rows' own texts and answered, and
  // out[i - from] is rows[i] with the vector at its place in the answer.
  ghost predicate HoldsOwnVec(replies: Replies, rows: seq<ValidRow>, out: seq<ValidRow>, from: nat, i: nat)
    requires from <= i < |rows| && |out| == |rows| - from
  {
    var start := i - i % 100;
    var end := if start + 100 < |rows| then start + 100 else |rows|;
    exists texts :: AreTexts(texts, rows, start, end) && replies(start, texts).Some?
      && |replies(start, texts).value| == |texts|
      && out[i - from] == ValidRow(rows[i].row, Draft(
        rows[i].draft.row.(embedding := replies(start, texts).value[i - start]), rows[i].draft.tags))
  }

  lemma {:induction false} OwnVec(replies: Replies, rows: seq<ValidRow>, out: seq<ValidRow>, from: nat, i: nat)
    requires from <= i < |rows| && |out| == |rows| - from
    requires VecFor(replies, rows, i).Some? && out[i - from] == WithVec(rows[i], VecFor(replies, rows, i).value)
    ensures HoldsOwnVec(replies, rows, out, from, i)
  {
    var start := i - i % 100;
    var texts := Texts(rows[start..ChunkEnd(start, |rows|)]);
    assert AreTexts(texts, rows, start, ChunkEnd(start, |rows|));
  }

  lemma {:induction false} OwnVecShifts(
      replies: Replies, rows: seq<ValidRow>, out: seq<ValidRow>, from: nat, rest: seq<ValidRow>, end: nat, i: nat)
    requires from <= end <= i < |rows| && |out| == |rows| - from && |rest| == |rows| - end
    requires out[i - from] == rest[i - end] && HoldsOwnVec(replies, rows, rest, end, i)
    ensures HoldsOwnVec(replies, rows, out, from, i)
  {
  }

  // A chunk fails exactly when its call does, or answers with another number of vectors.
  lemma {:induction false} ChunkFails(replies: Replies, rows: seq<ValidRow>, start: nat, texts: seq<string>)
    requires start <= |rows| && AreTexts(texts, rows, start, if start + 100 < |rows| then start + 100 else |rows|)
    ensures ChunkVecs(replies, rows, start).None? <==>
      replies(start, texts).None? || |replies(start, texts).value| != |texts|
  {
    assert texts == Texts(rows[start..ChunkEnd(start, |rows|)]);
  }

  // One more chunk in front of rows that hold their own vectors.
  lemma {:induction false} OneMoreChunk(
      replies: Replies, rows: seq<ValidRow>, from: nat, stop: nat, vecs: seq<Option<Vec>>)
    requires from < |rows| && from % 100 == 0 && ChunkVecs(replies, rows, from) == Some(vecs)
    requires ChunkEnd(from, |rows|) <= stop <= |rows|
    requires forall i: nat :: ChunkEnd(from, |rows|) <= i < stop ==>
      HoldsOwnVec(replies, rows, Embedded(replies, rows, ChunkEnd(from, |rows|)), ChunkEnd(from, |rows|), i)
    ensures forall i: nat :: from <= i < stop ==>
      HoldsOwnVec(replies, rows, Embedded(replies, rows, from), from, i)
    ensures Embedded(replies, rows, from)[stop - from..] ==
      Embedded(replies, rows, ChunkEnd(from, |rows|))[stop - ChunkEnd(from, |rows|)..]
  {
    var end := ChunkEnd(from, |rows|);
    ChunkStep(replies, rows, from, vecs, []);
    ChunkRows(replies, rows, from, vecs);
    var all, rest := Embedded(replies, rows, from), Embedded(replies, rows, end);
    assert all == WithVecs(rows[from..end], vecs) + rest;
    forall i: nat | from <= i < stop ensures HoldsOwnVec(replies, rows, all, from, i) {
      if i < end {
        OwnVec(replies, rows, all, from, i);
      } else {
        OwnVecShifts(replies, rows, all, from, rest, end, i);
      }
    }
  }

  // Whole chunks up to the first failed one get the embedder's answer for their own texts, position by
  // position; everything behind is left as it was.
  lemma {:induction false} EmbeddingPrefix(replies: Replies, rows: seq<ValidRow>, from: nat) returns (stop: nat)
    requires from <= |rows| && (from % 100 == 0 || from == |rows|)
    ensures from <= stop <= |rows| && (stop % 100 == 0 || stop == |rows|)
    ensures stop < |rows| ==> ChunkVecs(replies, rows, stop).None?
    ensures forall i: nat :: from <= i < stop ==>
      HoldsOwnVec(replies, rows, Embedded(replies, rows, from), from, i)
    ensures Embedded(replies, rows, from)[stop - from..] == rows[stop..]
    decreases |rows| - from
  {
    stop := from;
    if from < |rows| {
      var vecs := ChunkVecs(replies, rows, from);
      if vecs.Some? {
        stop := EmbeddingPrefix(replies, rows, ChunkEnd(from, |rows|));
        OneMoreChunk(replies, rows, from, stop, vecs.value);
      } else {
        assert Embedded(replies, rows, from) == rows[from..];
      }
    }
  }

  /* ---- storing ---- */

  function StoreOf(v: ValidRow, now: int): Store {
    Store(v.draft.row.(tags := TagSet(v.draft.tags)), now)
  }

  // The upserts that commit among the first n attempts, and the rows the others fail for.
  function Stores(valid: seq<ValidRow>, attempts: seq<Attempt>, n: nat): seq<Store>
    requires n <= |valid| && n <= |attempts|
  {
    if n == 0 then []
    else
      match attempts[n - 1]
      case Commits(now) => Stores(valid, attempts, n - 1) + [StoreOf(valid[n - 1], now)]
      case Fails(_) => Stores(valid, attempts, n - 1)
  }

  function Rejected(valid: seq<ValidRow>, attempts: seq<Attempt>, n: nat): seq<RowError>
    requires n <= |valid| && n <= |attempts|
  {
    if n == 0 then []
    else
      match attempts[n - 1]
      case Commits(_) => Rejected(valid, attempts, n - 1)
      case Fails(m) => Rejected(valid, attempts, n - 1) + [RowError(valid[n - 1].row, m)]
  }

  function Reached(valid: seq<ValidRow>, attempts: seq<Attempt>): nat {
    if |attempts| < |valid| then |attempts| else |valid|
  }

  // Running the stores, in order and under new keys, leads from one state to the other.
  ghost predicate Applied(db: DB, next: DB, stores: seq<Store>, ids: seq<QuestionId>) {
    |ids| == |stores| && NewIds(db, stores, ids) && next == UpsertAll(db, stores, ids)
  }

  // Created counts the distinct hashes the store did not hold; every other committed store is an update.
  ghost predicate Tallied(rep: Report, rows: Rows, stores: seq<Store>)
    reads rep
  {
    rep.created == |NewHashes(rows, stores)| && rep.created + rep.updated == |stores|
  }

  method StoreOne(
      repo: QuestionRepo, v: ValidRow, now: int, rep: Report,
      ghost db: DB, ghost stores: seq<Store>, ghost ids: seq<QuestionId>)
    returns (ghost newIds: seq<QuestionId>)
    requires UniqueHashes(db.rows) && Applied(db, repo.State(), stores, ids) && Tallied(rep, db.rows, stores)
    modifies repo`rows, rep`created, rep`updated
    ensures Applied(db, repo.State(), stores + [StoreOf(v, now)], newIds)
    ensures Tallied(rep, db.rows, stores + [StoreOf(v, now)])
  {
    RunUnique(db, stores, ids);
    ghost var s := StoreOf(v, now);
    CreatedStep(db, stores, ids, s);
    var created, id := repo.UpsertFromImport(v.draft.row, v.draft.tags, now);
    UpsertSnoc(db, stores, ids, s, id);
    newIds := ids + [id];
    if created {
      rep.created := rep.created + 1;
    } else {
      rep.updated := rep.updated + 1;
    }
  }

  // The state of the upsert loop after the first j attempts.
  ghost predicate StoredUpTo(
      db: DB, now: DB, rep: Report, rows: seq<ValidRow>, attempts: seq<Attempt>, bad: seq<RowError>, j: nat,
      ids: seq<QuestionId>)
    reads rep
    requires j <= |rows| && j <= |attempts|
  {
    && Applied(db, now, Stores(rows, attempts, j), ids)
    && Tallied(rep, db.rows, Stores(rows, attempts, j))
    && rep.Records(bad + Rejected(rows, attempts, j))
  }

  // One turn of the loop.
  method StoreNext(
      repo: QuestionRepo, v: ValidRow, attempt: Attempt, rep: Report, ghost db: DB, ghost rows: seq<ValidRow>,
      ghost attempts: seq<Attempt>, ghost bad: seq<RowError>, ghost j: nat, ghost ids: seq<QuestionId>)
    returns (ghost newIds: seq<QuestionId>)
    requires UniqueHashes(db.rows) && j < |rows| && j < |attempts| && v == rows[j] && attempt == attempts[j]
    requires StoredUpTo(db, repo.State(), rep, rows, attempts, bad, j, ids)
    modifies repo`rows, rep`created, rep`updated, rep`failed, rep`errors
    ensures StoredUpTo(db, repo.State(), rep, rows, attempts, bad, j + 1, newIds)
  {
    ghost var rejected := Rejected(rows, attempts, j);
    newIds := ids;
    match attempt {
      case Commits(now) =>
        newIds := StoreOne(repo, v, now, rep, db, Stores(rows, attempts, j), ids);
      case Fails(message) =>
        ghost var x := RowError(v.row, message);
        CappedSnoc(bad + rejected, x);
        Associative(bad, rejected, [x]);
        rep.AddRowError(v.row, message);
    }
  }

  method StoreAll(
      repo: QuestionRepo, valid: array<ValidRow>, attempts: seq<Attempt>, rep: Report, ghost bad: seq<RowError>)
    returns (ghost ids: seq<QuestionId>)
    requires UniqueHashes(repo.rows) && rep.created == 0 && rep.updated == 0 && rep.Records(bad)
    modifies repo`rows, rep`created, rep`updated, rep`failed, rep`errors
    ensures var n := Reached(valid[..], attempts);
      var stores := Stores(valid[..], attempts, n);
      && Applied(old(repo.State()), repo.State(), stores, ids)
      && Tallied(rep, old(repo.rows), stores)
      && rep.Records(bad + Rejected(valid[..], attempts, n))
  {
    ids := [];
    ghost var db := repo.State();
    ghost var rows := valid[..];
    assert NewHashes(db.rows, []) == {};
    assert bad + [] == bad;
    var j := 0;
    while j < valid.Length
      invariant j <= valid.Length && j <= |attempts| && valid[..] == rows
      invariant StoredUpTo(db, repo.State(), rep, rows, attempts, bad, j, ids)
    {
      if j >= |attempts| {
        break;
      }
      ids := StoreNext(repo, valid[j], attempts[j], rep, db, rows, attempts, bad, j, ids);
      j := j + 1;
    }
  }

  lemma {:induction false} OneOutcomeEach(valid: seq<ValidRow>, attempts: seq<Attempt>, n: nat)
    requires n <= |valid| && n <= |attempts|
    ensures |Stores(valid, attempts, n)| + |Rejected(valid, attempts, n)| == n
  {
    if n > 0 {
      OneOutcomeEach(valid, attempts, n - 1);
    }
  }

  /* ---- the whole import ---- */

  // What one import of a readable file amounts to.
  datatype Plan = Plan(valid: seq<ValidRow>, stores: seq<Store>, errors: seq<RowError>, skipped: nat)

  function PlanOf(e: Env, file: seq<seq<string>>, embedder: Option<Replies>, attempts: seq<Attempt>): Plan {
    var parsed := ParseEach(e, file);
    var valid := EmbeddedBy(embedder, ValidRows(parsed));
    var n := Reached(valid, attempts);
    Plan(valid, Stores(valid, attempts, n), BadRows(parsed) + Rejected(valid, attempts, n), |valid| - n)
  }

  lemma {:induction false} PlanAddsUp(e: Env, file: seq<seq<string>>, embedder: Option<Replies>, attempts: seq<Attempt>)
    ensures var p := PlanOf(e, file, embedder, attempts);
      && |p.stores| + |p.errors| + p.skipped == |file|
      && (p.skipped > 0 <==> |attempts| < |p.valid|)
  {
    var p := PlanOf(e, file, embedder, attempts);
    EveryRowOnce(ParseEach(e, file));
    OneOutcomeEach(p.valid, attempts, Reached(p.valid, attempts));
  }

  ghost predicate Reported(rep: Report, rows: Rows, p: Plan)
    reads rep
  {
    && Tallied(rep, rows, p.stores)
    && rep.Records(p.errors)
  }

  method Prepare(e: Env, file: seq<seq<string>>, embedder: Option<Replies>, rep: Report)
    returns (valid: array<ValidRow>)
    requires rep.Records([])
    modifies rep`failed, rep`errors
    ensures fresh(valid) && valid[..] == EmbeddedBy(embedder, ValidRows(ParseEach(e, file)))
    ensures rep.Records(BadRows(ParseEach(e, file)))
  {
    var parsed := ParseAll(e, file, rep);
    valid := new ValidRow[|parsed|](i requires 0 <= i < |parsed| => parsed[i]);
    assert valid[..] == parsed;
    EmbedAll(embedder, valid);
  }

  // The rows of a readable file that is not too long.
  method ImportRowsOf(
      repo: QuestionRepo, e: Env, file: seq<seq<string>>, embedder: Option<Replies>, attempts: seq<Attempt>)
    returns (rep: Report, ghost ids: seq<QuestionId>)
    requires UniqueHashes(repo.rows)
    modifies repo`rows
    ensures fresh(rep) && rep.totalRows == |file|
    ensures Applied(old(repo.State()), repo.State(), PlanOf(e, file, embedder, attempts).stores, ids)
    ensures Reported(rep, old(repo.rows), PlanOf(e, file, embedder, attempts))
  {
    rep := new Report(|file|);
    var valid := Prepare(e, file, embedder, rep);
    ids := StoreAll(repo, valid, attempts, rep, BadRows(ParseEach(e, file)));
  }

  // A row counts as created, updated or failed unless the import was cancelled before its upsert.
  method Import(
      repo: QuestionRepo, e: Env, file: Result<seq<seq<string>>, string>, maxRows: nat,
      embedder: Option<Replies>, attempts: seq<Attempt>)
    returns (r: Result<Report, ImportError>, ghost ids: seq<QuestionId>)
    requires UniqueHashes(repo.rows)
    modifies repo`rows
    ensures r.Ok? <==> file.Ok? && |file.value| <= maxRows
    ensures r.Err? ==> repo.State() == old(repo.State())
    ensures r.Err? ==> r.error == if file.Err? then Unreadable(file.error) else TooManyRows
    ensures r.Ok? ==>
      var p := PlanOf(e, file.value, embedder, attempts);
      Applied(old(repo.State()), repo.State(), p.stores, ids) && Reported(r.value, old(repo.rows), p)
    ensures r.Ok? ==>
      var rep, p := r.value, PlanOf(e, file.value, embedder, attempts);
      rep.totalRows == |file.value| == rep.created + rep.updated + rep.failed + p.skipped
  {
    ids := [];
    if file.Err? {
      return Err(Unreadable(file.error)), [];
    }
    if |file.value| > maxRows {
      return Err(TooManyRows), [];
    }
    PlanAddsUp(e, file.value, embedder, attempts);
    var rep;
    rep, ids := ImportRowsOf(repo, e, file.value, embedder, attempts);
    r := Ok(rep);
  }
}
