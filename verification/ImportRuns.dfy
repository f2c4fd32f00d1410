/** Whole imports: a file refines the last-wins map, and importing it again changes nothing. */
module ImportRuns {
  import opened Wrappers
  import opened Questions
  import opened Drafts
  import opened Normalize
  import opened ImportRows
  import opened Upserts
  import opened Importer

  // Neither a failed upsert nor a cancellation.
  predicate AllCommit(p: Plan, attempts: seq<Attempt>) {
    |p.valid| <= |attempts| && forall j :: 0 <= j < |p.valid| ==> attempts[j].Commits?
  }

  predicate NormTrue(e: Env, r: Row) {
    r.norm == NormalizeQuestion(e.unicode, r.text) && r.hash == e.digest(r.norm)
  }

  // What every row built from a file has.
  predicate Built(e: Env, r: Row) {
    && r.status.Verified? && NormTrue(e, r) && r.number == 0 && r.labeling == Letter
    && r.verifiedAt.Some? && r.verifiedBy == Some(e.user)
  }

  predicate BuiltRows(e: Env, rows: seq<ValidRow>) {
    forall k :: 0 <= k < |rows| ==> Built(e, rows[k].draft.row)
  }

  predicate BuiltStores(e: Env, stores: seq<Store>) {
    forall k :: 0 <= k < |stores| ==> Built(e, stores[k].q)
  }

  lemma {:induction false} ParsedBuilt(e: Env, cells: seq<string>)
    ensures ParseRow(e, cells).Ok? ==> Built(e, ParseRow(e, cells).value.row)
  {
  }

  lemma {:induction false} EmbeddedBuilt(e: Env, replies: Replies, rows: seq<ValidRow>, from: nat)
    requires from <= |rows| && BuiltRows(e, rows)
    ensures BuiltRows(e, Embedded(replies, rows, from))
    decreases |rows| - from
  {
    if from < |rows| && ChunkVecs(replies, rows, from).Some? {
      EmbeddedBuilt(e, replies, rows, ChunkEnd(from, |rows|));
    }
  }

  lemma {:induction false} StoresBuilt(e: Env, valid: seq<ValidRow>, attempts: seq<Attempt>, n: nat)
    requires n <= |valid| && n <= |attempts| && BuiltRows(e, valid)
    ensures BuiltStores(e, Stores(valid, attempts, n))
  {
    if n > 0 {
      StoresBuilt(e, valid, attempts, n - 1);
      assert Built(e, valid[n - 1].draft.row);
    }
  }

  lemma {:induction false} PlanBuilt(e: Env, file: seq<seq<string>>, embedder: Option<Replies>, attempts: seq<Attempt>)
    ensures var stores := PlanOf(e, file, embedder, attempts).stores;
      BuiltStores(e, stores) && AllVerified(stores)
  {
    var parsed := ParseEach(e, file);
    var rows := ValidRows(parsed);
    EveryRowOnce(parsed);
    forall k | 0 <= k < |rows| ensures Built(e, rows[k].draft.row) {
      assert IsValidRow(parsed, rows[k]);
      ParsedBuilt(e, file[rows[k].row - 1]);
    }
    if embedder.Some? {
      EmbeddedBuilt(e, embedder.value, rows, 0);
    }
    var valid := EmbeddedBy(embedder, rows);
    StoresBuilt(e, valid, attempts, Reached(valid, attempts));
    assert forall k :: 0 <= k < |PlanOf(e, file, embedder, attempts).stores| ==>
      Built(e, PlanOf(e, file, embedder, attempts).stores[k].q);
  }

  lemma {:induction false} StoresAll(valid: seq<ValidRow>, attempts: seq<Attempt>, n: nat)
    requires n <= |valid| && n <= |attempts| && forall j :: 0 <= j < n ==> attempts[j].Commits?
    ensures |Stores(valid, attempts, n)| == n
    ensures forall j :: 0 <= j < n ==> Stores(valid, attempts, n)[j] == StoreOf(valid[j], attempts[j].now)
  {
    if n > 0 {
      StoresAll(valid, attempts, n - 1);
    }
  }

  // Whatever fails or is cancelled, every hash ends as the last-wins map over the committed rows says;
  // when nothing does, those are the valid rows of the file, one by one.
  lemma {:induction false} ImportLastWins(
      e: Env, file: seq<seq<string>>, embedder: Option<Replies>, attempts: seq<Attempt>,
      db: DB, next: DB, ids: seq<QuestionId>, h: Hash)
    requires UniqueHashes(db.rows)
    requires Applied(db, next, PlanOf(e, file, embedder, attempts).stores, ids)
    ensures var p := PlanOf(e, file, embedder, attempts);
      && RowOf(next, h) == LastWinsRow(RowOf(db, h), p.stores, h)
      && IdOf(next.rows, h) == LastWinsId(IdOf(db.rows, h), p.stores, ids, h)
      && (AllCommit(p, attempts) ==>
        && |p.stores| == |p.valid|
        && forall j :: 0 <= j < |p.valid| ==>
          p.stores[j] == StoreOf(p.valid[j], attempts[j].now) && p.stores[j].now == attempts[j].now)
  {
    var p := PlanOf(e, file, embedder, attempts);
    PlanBuilt(e, file, embedder, attempts);
    LastWins(db, p.stores, ids, h);
    if AllCommit(p, attempts) {
      StoresAll(p.valid, attempts, |p.valid|);
    }
  }

  /* ---- what the update leaves out of its SET list ---- */

  ghost predicate Injective(digest: string -> Hash) {
    forall a, b :: digest(a) == digest(b) ==> a == b
  }

  predicate NormsTrue(e: Env, rows: Rows) {
    forall id :: id in rows ==> NormTrue(e, rows[id])
  }

  lemma {:induction false} LastWinsNorm(e: Env, prior: Option<Row>, stores: seq<Store>, h: Hash)
    requires Injective(e.digest) && BuiltStores(e, stores)
    requires prior.Some? ==> prior.value.hash == h && NormTrue(e, prior.value)
    ensures LastWinsRow(prior, stores, h).Some? ==> NormTrue(e, LastWinsRow(prior, stores, h).value)
  {
    var last, first := LastFor(stores, h, false), FirstFor(stores, h);
    if last >= 0 {
      assert Built(e, stores[last].q) && Built(e, stores[first].q);
      var base := if prior.Some? then prior.value else stores[first].q;
      assert e.digest(base.norm) == h == e.digest(stores[last].q.norm);
    }
  }

  // The stored normal form is never rewritten, and stays that of the stored text.
  lemma {:induction false} ImportKeepsNorms(
      e: Env, file: seq<seq<string>>, embedder: Option<Replies>, attempts: seq<Attempt>,
      db: DB, next: DB, ids: seq<QuestionId>)
    requires Injective(e.digest) && UniqueHashes(db.rows) && NormsTrue(e, db.rows)
    requires Applied(db, next, PlanOf(e, file, embedder, attempts).stores, ids)
    ensures NormsTrue(e, next.rows)
  {
    var stores := PlanOf(e, file, embedder, attempts).stores;
    PlanBuilt(e, file, embedder, attempts);
    RunUnique(db, stores, ids);
    forall id | id in next.rows ensures NormTrue(e, next.rows[id]) {
      var h := next.rows[id].hash;
      IdOfHash(next.rows, id);
      LastWins(db, stores, ids, h);
      LastWinsNorm(e, RowOf(db, h), stores, h);
    }
  }

  // A stored vector is the one of the stored text.
  predicate VecTrue(vec: string -> Vec, r: Row) {
    r.embedding.Some? ==> r.embedding.value == vec(r.text)
  }

  // The text whose vector a hash is left with.
  function VecText(prior: Option<Row>, stores: seq<Store>, h: Hash): Option<string> {
    var k := LastFor(stores, h, true);
    if k >= 0 then Some(stores[k].q.text)
    else if prior.Some? && prior.value.embedding.Some? then Some(prior.value.text)
    else None
  }

  // The kept vector is that of the kept text exactly when the last text embedded under the hash has the
  // same vector as the last text imported under it; an equal hash alone does not make the texts equal.
  lemma {:induction false} KeptVectorTrueIff(vec: string -> Vec, prior: Option<Row>, stores: seq<Store>, h: Hash)
    requires prior.Some? ==> VecTrue(vec, prior.value)
    requires forall k :: 0 <= k < |stores| ==> VecTrue(vec, stores[k].q)
    requires LastFor(stores, h, false) >= 0
    ensures var source := VecText(prior, stores, h);
      VecTrue(vec, LastWinsRow(prior, stores, h).value) <==>
      (source.None? || vec(source.value) == vec(stores[LastFor(stores, h, false)].q.text))
  {
    var k := LastFor(stores, h, true);
    assert k >= 0 ==> VecTrue(vec, stores[k].q);
  }

  // "ab" and "ab " share a hash: importing the second without a vector keeps that of the first.
  lemma {:induction false} KeptVectorGoesStale(e: Env, vec: string -> Vec, r: Row, q: Row, now: int)
    requires e.unicode.space(' ') && !e.unicode.space('a') && !e.unicode.space('b')
    requires r.text == "ab" && q.text == "ab " && NormTrue(e, r) && NormTrue(e, q)
    requires r.embedding == Some(vec("ab")) && q.embedding.None? && vec("ab") != vec("ab ")
    ensures r.hash == q.hash && VecTrue(vec, r) && VecTrue(vec, q)
    ensures !VecTrue(vec, MergeRow(r, q, now))
  {
    var u := e.unicode;
    var s := "ab ";
    assert s[..2] == "ab";
    assert TrimLeft(u, s) == s && TrimRight(u, s[..2]) == s[..2];
    assert TrimSpace(u, s) == "ab" == TrimSpace(u, "ab");
  }

  /* ---- the same file again ---- */

  predicate SimilarRow(a: ValidRow, b: ValidRow) {
    a.row == b.row && a.draft.tags == b.draft.tags && SameContent(a.draft.row, b.draft.row)
  }

  predicate Similar(a: seq<ValidRow>, b: seq<ValidRow>) {
    |a| == |b| && forall k :: 0 <= k < |a| ==> SimilarRow(a[k], b[k])
  }

  predicate SameVecs(a: seq<ValidRow>, b: seq<ValidRow>) {
    |a| == |b| && forall k :: 0 <= k < |a| ==> a[k].draft.row.embedding == b[k].draft.row.embedding
  }

  predicate SimilarResult(a: Result<Draft, string>, b: Result<Draft, string>) {
    && a.Ok? == b.Ok?
    && (a.Ok? ==> (a.value.tags == b.value.tags && SameContent(a.value.row, b.value.row)
        && a.value.row.embedding == b.value.row.embedding))
  }

  predicate SimilarParsed(a: Parsed, b: Parsed) {
    |a| == |b| && forall k :: 0 <= k < |a| ==> SimilarResult(a[k], b[k])
  }

  lemma {:induction false} ParseAgain(e: Env, later: Env, cells: seq<string>)
    requires e.unicode == later.unicode && e.digest == later.digest
    ensures SimilarResult(ParseRow(e, cells), ParseRow(later, cells))
  {
  }

  lemma {:induction false} OneMoreSimilar(a: seq<ValidRow>, b: seq<ValidRow>, x: ValidRow, y: ValidRow)
    requires Similar(a, b) && SameVecs(a, b)
    requires SimilarRow(x, y) && x.draft.row.embedding == y.draft.row.embedding
    ensures Similar(a + [x], b + [y]) && SameVecs(a + [x], b + [y])
  {
  }

  lemma {:induction false} ValidAgain(a: Parsed, b: Parsed)
    requires SimilarParsed(a, b)
    ensures Similar(ValidRows(a), ValidRows(b)) && SameVecs(ValidRows(a), ValidRows(b))
  {
    if a != [] {
      var n := |a| - 1;
      ValidAgain(a[..n], b[..n]);
      assert SimilarResult(a[n], b[n]);
      if a[n].Ok? {
        OneMoreSimilar(
          ValidRows(a[..n]), ValidRows(b[..n]), ValidRow(n + 1, a[n].value), ValidRow(n + 1, b[n].value));
      }
    }
  }

  lemma {:induction false} ChunkAgain(replies: Replies, a: seq<ValidRow>, b: seq<ValidRow>, from: nat)
    requires from <= |a| && Similar(a, b)
    ensures ChunkVecs(replies, a, from) == ChunkVecs(replies, b, from)
  {
    var end := ChunkEnd(from, |a|);
    var x, y := Texts(a[from..end]), Texts(b[from..end]);
    assert |x| == |y|;
    forall i | 0 <= i < |x| ensures x[i] == y[i] {
      assert SimilarRow(a[from + i], b[from + i]);
    }
    assert x == y;
  }

  lemma {:induction false} EmbedKeepsContent(replies: Replies, rows: seq<ValidRow>, from: nat)
    requires from <= |rows|
    ensures Similar(Embedded(replies, rows, from), rows[from..])
    decreases |rows| - from
  {
    if from < |rows| && ChunkVecs(replies, rows, from).Some? {
      var end := ChunkEnd(from, |rows|);
      EmbedKeepsContent(replies, rows, end);
      assert rows[from..] == rows[from..end] + rows[end..];
    }
  }

  lemma {:induction false} EmbedAgain(replies: Replies, a: seq<ValidRow>, b: seq<ValidRow>, from: nat)
    requires from <= |a| && Similar(a, b) && SameVecs(a, b)
    ensures SameVecs(Embedded(replies, a, from), Embedded(replies, b, from))
    decreases |a| - from
  {
    if from < |a| {
      ChunkAgain(replies, a, b, from);
      if ChunkVecs(replies, a, from).Some? {
        EmbedAgain(replies, a, b, ChunkEnd(from, |a|));
      }
    }
  }

  lemma {:induction false} EmbeddedByAgain(m: Option<Replies>, n: Option<Replies>, a: seq<ValidRow>, b: seq<ValidRow>)
    requires Similar(a, b) && SameVecs(a, b)
    ensures Similar(EmbeddedBy(m, a), EmbeddedBy(n, b))
    ensures m == n ==> SameVecs(EmbeddedBy(m, a), EmbeddedBy(n, b))
  {
    var x, y := EmbeddedBy(m, a), EmbeddedBy(n, b);
    if m.Some? {
      EmbedKeepsContent(m.value, a, 0);
      if m == n {
        EmbedAgain(m.value, a, b, 0);
      }
    }
    if n.Some? {
      EmbedKeepsContent(n.value, b, 0);
    }
    assert a[0..] == a && b[0..] == b;
    assert Similar(x, a) && Similar(y, b);
    forall k | 0 <= k < |x| ensures SimilarRow(x[k], y[k]) {
      assert SimilarRow(x[k], a[k]) && SimilarRow(a[k], b[k]) && SimilarRow(y[k], b[k]);
    }
  }

  lemma {:induction false} StoresAgree(
      a: seq<ValidRow>, b: seq<ValidRow>, x: seq<Store>, y: seq<Store>, s: seq<Attempt>, t: seq<Attempt>)
    requires Similar(a, b) && |x| == |a| && |y| == |b| && |a| <= |s| && |b| <= |t|
    requires forall j :: 0 <= j < |a| ==> s[j].Commits? && x[j] == StoreOf(a[j], s[j].now)
    requires forall j :: 0 <= j < |b| ==> t[j].Commits? && y[j] == StoreOf(b[j], t[j].now)
    ensures SameStores(x, y) && (SameVecs(a, b) ==> SameVectors(x, y))
  {
    forall j | 0 <= j < |a| ensures SameContent(x[j].q, y[j].q) {
      assert SimilarRow(a[j], b[j]);
    }
  }

  lemma {:induction false} PlansAgree(
      e: Env, later: Env, file: seq<seq<string>>, m: Option<Replies>, n: Option<Replies>,
      attempts: seq<Attempt>, laterAttempts: seq<Attempt>)
    requires e.unicode == later.unicode && e.digest == later.digest
    requires AllCommit(PlanOf(e, file, m, attempts), attempts)
    requires AllCommit(PlanOf(later, file, n, laterAttempts), laterAttempts)
    ensures var p, q := PlanOf(e, file, m, attempts), PlanOf(later, file, n, laterAttempts);
      SameStores(p.stores, q.stores) && (m == n ==> SameVectors(p.stores, q.stores))
  {
    var p, q := PlanOf(e, file, m, attempts), PlanOf(later, file, n, laterAttempts);
    var a, b := ParseEach(e, file), ParseEach(later, file);
    forall k | 0 <= k < |file| ensures SimilarResult(a[k], b[k]) {
      ParseAgain(e, later, file[k]);
    }
    ValidAgain(a, b);
    EmbeddedByAgain(m, n, ValidRows(a), ValidRows(b));
    StoresAll(p.valid, attempts, |p.valid|);
    StoresAll(q.valid, laterAttempts, |q.valid|);
    StoresAgree(p.valid, q.valid, p.stores, q.stores, attempts, laterAttempts);
  }

  // The second import of a file creates nothing, keeps every key and leaves every row's content; with
  // the same embedder answers it leaves the vectors too.
  lemma {:induction false} ReimportFile(
      e: Env, later: Env, file: seq<seq<string>>, m: Option<Replies>, n: Option<Replies>,
      attempts: seq<Attempt>, laterAttempts: seq<Attempt>,
      db: DB, once: DB, twice: DB, ids: seq<QuestionId>, laterIds: seq<QuestionId>, h: Hash)
    requires e.unicode == later.unicode && e.digest == later.digest && UniqueHashes(db.rows)
    requires AllCommit(PlanOf(e, file, m, attempts), attempts)
    requires AllCommit(PlanOf(later, file, n, laterAttempts), laterAttempts)
    requires Applied(db, once, PlanOf(e, file, m, attempts).stores, ids)
    requires Applied(once, twice, PlanOf(later, file, n, laterAttempts).stores, laterIds)
    ensures NewHashes(once.rows, PlanOf(later, file, n, laterAttempts).stores) == {}
    ensures IdOf(twice.rows, h) == IdOf(once.rows, h)
    ensures RowOf(once, h).Some? ==> SameContent(RowOf(twice, h).value, RowOf(once, h).value)
    ensures RowOf(once, h).Some? && m == n ==> RowOf(twice, h).value.embedding == RowOf(once, h).value.embedding
  {
    var p, q := PlanOf(e, file, m, attempts), PlanOf(later, file, n, laterAttempts);
    PlansAgree(e, later, file, m, n, attempts, laterAttempts);
    PlanBuilt(e, file, m, attempts);
    Reimport(db, p.stores, ids, q.stores, laterIds, h);
  }

  /* ---- what a written row ends up as ---- */

  lemma {:induction false} ValidIndex(parsed: Parsed, i: nat) returns (k: nat)
    requires i < |parsed| && parsed[i].Ok?
    ensures k < |ValidRows(parsed)| && ValidRows(parsed)[k] == ValidRow(i + 1, parsed[i].value)
    ensures forall j :: k < j < |ValidRows(parsed)| ==> ValidRows(parsed)[j].row > i + 1
  {
    var n := |parsed| - 1;
    EveryRowOnce(parsed);
    if i < n {
      k := ValidIndex(parsed[..n], i);
    } else {
      k := |ValidRows(parsed[..n])|;
    }
  }

  lemma {:induction false} EmbeddedSimilar(m: Option<Replies>, rows: seq<ValidRow>)
    ensures Similar(EmbeddedBy(m, rows), rows)
  {
    if m.Some? {
      EmbedKeepsContent(m.value, rows, 0);
      assert rows[0..] == rows;
    }
  }

  // What stays of an entry: all of it, under the number, labeling and normal form the hash had before.
  ghost predicate EndsAs(e: Env, x: Entry, prior: Option<Row>, r: Row) {
    && r.text == x.text && r.choices == x.choices && r.answers == x.answers
    && r.explanation == (if x.tags == [] && Blank(e.unicode, x.explanation) then "" else x.explanation)
    && (r.qtype == FreeResponse <==> x.choices == []) && r.confidence == 0.99
    && r.status == Verified && r.verifiedAt.Some? && r.verifiedBy == Some(e.user)
    && (forall t :: t in r.tags <==> t == "import" || t in x.tags)
    && r.number == (if prior.Some? then prior.value.number else 0)
    && r.labeling == (if prior.Some? then prior.value.labeling else Letter)
    && (prior.Some? ==> r.norm == prior.value.norm)
  }

  predicate StoresOf(valid: seq<ValidRow>, stores: seq<Store>) {
    |stores| == |valid| && forall j :: 0 <= j < |valid| ==> stores[j] == StoreOf(valid[j], stores[j].now)
  }

  predicate LastWith(parsed: Parsed, i: nat, h: Hash)
    requires i < |parsed|
  {
    && parsed[i].Ok? && parsed[i].value.row.hash == h
    && forall j :: i < j < |parsed| && parsed[j].Ok? ==> parsed[j].value.row.hash != h
  }

  // The last row of a file for a hash is the last store for it.
  lemma {:induction false} LastRowLast(
      parsed: Parsed, i: nat, h: Hash, valid: seq<ValidRow>, stores: seq<Store>) returns (k: nat)
    requires i < |parsed| && LastWith(parsed, i, h)
    requires Similar(valid, ValidRows(parsed)) && StoresOf(valid, stores)
    ensures k < |valid| && SimilarRow(valid[k], ValidRow(i + 1, parsed[i].value))
    ensures LastFor(stores, h, false) == k
  {
    var rows := ValidRows(parsed);
    k := ValidIndex(parsed, i);
    EveryRowOnce(parsed);
    assert SimilarRow(valid[k], rows[k]);
    forall j | k < j < |stores| ensures stores[j].q.hash != h {
      assert SimilarRow(valid[j], rows[j]) && IsValidRow(parsed, rows[j]);
    }
    assert Carries(stores[k], h, false);
  }

  lemma {:induction false} EndsAsLast(
      e: Env, x: Entry, d: Draft, prior: Option<Row>, stores: seq<Store>, k: nat, h: Hash, v: ValidRow)
    requires BuiltStores(e, stores) && k < |stores| && LastFor(stores, h, false) == k
    requires stores[k] == StoreOf(v, stores[k].now) && ReadsAs(e, x, d) && SimilarRow(v, ValidRow(v.row, d))
    ensures LastWinsRow(prior, stores, h).Some? && EndsAs(e, x, prior, LastWinsRow(prior, stores, h).value)
  {
    var r := LastWinsRow(prior, stores, h).value;
    assert Built(e, stores[FirstFor(stores, h)].q) && Built(e, stores[k].q);
    forall t ensures t in r.tags <==> t == "import" || t in x.tags {
      assert v.draft.tags[|x.tags|] == "import";
    }
  }

  // The plan of a file that is imported completely: its valid rows, one store each.
  lemma {:induction false} CompletePlan(
      e: Env, file: seq<seq<string>>, embedder: Option<Replies>, attempts: seq<Attempt>)
    requires AllCommit(PlanOf(e, file, embedder, attempts), attempts)
    ensures var p := PlanOf(e, file, embedder, attempts);
      Similar(p.valid, ValidRows(ParseEach(e, file))) && StoresOf(p.valid, p.stores)
  {
    var p := PlanOf(e, file, embedder, attempts);
    EmbeddedSimilar(embedder, ValidRows(ParseEach(e, file)));
    StoresAll(p.valid, attempts, |p.valid|);
  }

  // A question written into a file and imported is found under its hash as it was written, unless a later
  // row of the file has the same hash.
  lemma {:induction false} WrittenRowEnds(
      e: Env, file: seq<seq<string>>, i: nat, x: Entry, embedder: Option<Replies>, attempts: seq<Attempt>,
      db: DB, next: DB, ids: seq<QuestionId>)
    requires i < |file| && file[i] == CellsOf(x) && Writable(e.unicode, x) && UniqueHashes(db.rows)
    requires LastWith(ParseEach(e, file), i, e.digest(NormalizeQuestion(e.unicode, x.text)))
    requires AllCommit(PlanOf(e, file, embedder, attempts), attempts)
    requires Applied(db, next, PlanOf(e, file, embedder, attempts).stores, ids)
    ensures var h := e.digest(NormalizeQuestion(e.unicode, x.text));
      RowOf(next, h).Some? && EndsAs(e, x, RowOf(db, h), RowOf(next, h).value)
  {
    var p := PlanOf(e, file, embedder, attempts);
    var h := e.digest(NormalizeQuestion(e.unicode, x.text));
    RowReadsBack(e, x);
    CompletePlan(e, file, embedder, attempts);
    var k := LastRowLast(ParseEach(e, file), i, h, p.valid, p.stores);
    PlanBuilt(e, file, embedder, attempts);
    LastWins(db, p.stores, ids, h);
    EndsAsLast(e, x, ParseRow(e, CellsOf(x)).value, RowOf(db, h), p.stores, k, h, p.valid[k]);
  }
}
