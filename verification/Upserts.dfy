/** A run of import upserts: what each hash ends up with. */
module Upserts {
  import opened Wrappers
  import opened Questions

  // One committed upsert transaction: the row it carries and the database time.
  datatype Store = Store(q: Row, now: int)

  // ids[k] is the key the k-th statement would insert under.
  ghost function UpsertAll(db: DB, stores: seq<Store>, ids: seq<QuestionId>): DB
    requires |ids| == |stores|
  {
    if stores == [] then db
    else
      var n := |stores| - 1;
      Upsert(UpsertAll(db, stores[..n], ids[..n]), ids[n], stores[n].q, stores[n].now)
  }

  ghost predicate NewIds(db: DB, stores: seq<Store>, ids: seq<QuestionId>)
    requires |ids| == |stores|
  {
    stores == [] ||
    var n := |stores| - 1;
    NewIds(db, stores[..n], ids[..n]) && ids[n] !in UpsertAll(db, stores[..n], ids[..n]).rows
  }

  lemma {:induction false} UpsertSnoc(db: DB, stores: seq<Store>, ids: seq<QuestionId>, s: Store, id: QuestionId)
    requires |ids| == |stores|
    requires NewIds(db, stores, ids) && id !in UpsertAll(db, stores, ids).rows
    ensures UpsertAll(db, stores + [s], ids + [id]) == Upsert(UpsertAll(db, stores, ids), id, s.q, s.now)
    ensures NewIds(db, stores + [s], ids + [id])
  {
    assert (stores + [s])[..|stores|] == stores && (ids + [id])[..|ids|] == ids;
  }

  predicate Carries(s: Store, h: Hash, vec: bool) {
    s.q.hash == h && (vec ==> s.q.embedding.Some?)
  }

  // The last store for a hash; with vec, the last that carries an embedding. -1 when there is none.
  function LastFor(stores: seq<Store>, h: Hash, vec: bool): (k: int)
    ensures -1 <= k < |stores|
    ensures k >= 0 ==> Carries(stores[k], h, vec)
    ensures forall j :: k < j < |stores| ==> !Carries(stores[j], h, vec)
  {
    if stores == [] || Carries(stores[|stores| - 1], h, vec) then |stores| - 1
    else
      var init := stores[..|stores| - 1];
      var k := LastFor(init, h, vec);
      assert forall j :: k < j < |init| ==> stores[j] == init[j];
      k
  }

  function FirstFor(stores: seq<Store>, h: Hash): (k: nat)
    ensures k <= |stores|
    ensures k < |stores| ==> stores[k].q.hash == h
    ensures forall j :: 0 <= j < k ==> stores[j].q.hash != h
  {
    if stores == [] then 0
    else
      var init := stores[..|stores| - 1];
      var k := FirstFor(init, h);
      assert forall j :: 0 <= j < k ==> stores[j] == init[j];
      if k < |init| then k else if stores[|init|].q.hash == h then |init| else |stores|
  }

  // The simple last-wins map: the row a hash must end with, given the row it had.
  function LastWinsRow(prior: Option<Row>, stores: seq<Store>, h: Hash): Option<Row> {
    var last := LastFor(stores, h, false);
    if last < 0 then prior
    else
      var first := FirstFor(stores, h);
      var vec := LastFor(stores, h, true);
      var base := if prior.Some? then prior.value else stores[first].q;
      var q := stores[last].q;
      Some(Row(
        base.number, q.text, base.norm, h, q.choices, q.answers, base.labeling, q.qtype, q.confidence, q.explanation,
        if vec >= 0 then stores[vec].q.embedding else if prior.Some? then prior.value.embedding else None,
        Verified,
        if prior.None? && first == last then q.verifiedAt else Some(stores[last].now),
        q.verifiedBy, q.tags))
  }

  function LastWinsId(prior: Option<QuestionId>, stores: seq<Store>, ids: seq<QuestionId>, h: Hash): Option<QuestionId>
    requires |ids| == |stores|
  {
    if prior.Some? || LastFor(stores, h, false) < 0 then prior
    else
      assert FirstFor(stores, h) <= LastFor(stores, h, false) < |stores|;
      Some(ids[FirstFor(stores, h)])
  }

  ghost function RowOf(db: DB, h: Hash): Option<Row> {
    match IdOf(db.rows, h)
    case Some(id) => Some(db.rows[id])
    case None => None
  }

  predicate AllVerified(stores: seq<Store>) {
    forall k :: 0 <= k < |stores| ==> stores[k].q.status.Verified?
  }

  // What one statement does to the row of a hash.
  function Written(prior: Option<Row>, s: Store, h: Hash): Option<Row> {
    if s.q.hash != h then prior
    else if prior.None? then Some(s.q)
    else Some(MergeRow(prior.value, s.q, s.now))
  }

  lemma {:induction false} UpsertUnique(db: DB, id: QuestionId, s: Store)
    requires UniqueHashes(db.rows) && id !in db.rows
    ensures UniqueHashes(Upsert(db, id, s.q, s.now).rows)
  {
  }

  lemma {:induction false} UpsertId(db: DB, id: QuestionId, s: Store, h: Hash)
    requires UniqueHashes(db.rows) && id !in db.rows
    ensures IdOf(Upsert(db, id, s.q, s.now).rows, h) ==
      if h == s.q.hash && IdOf(db.rows, h).None? then Some(id) else IdOf(db.rows, h)
  {
    var next := Upsert(db, id, s.q, s.now);
    UpsertUnique(db, id, s);
    var prior := IdOf(db.rows, h);
    if prior.Some? {
      assert next.rows[prior.value].hash == h;
      IdOfHash(next.rows, prior.value);
    } else if h == s.q.hash {
      IdOfHash(next.rows, id);
    } else {
      assert !HashTaken(next.rows, h);
    }
  }

  // One statement changes the row of its own hash and no other.
  lemma {:induction false} UpsertOne(db: DB, id: QuestionId, s: Store, h: Hash)
    requires UniqueHashes(db.rows) && id !in db.rows
    ensures RowOf(Upsert(db, id, s.q, s.now), h) == Written(RowOf(db, h), s, h)
  {
    UpsertId(db, id, s, h);
  }

  function WrittenAll(prior: Option<Row>, stores: seq<Store>, h: Hash): Option<Row> {
    if stores == [] then prior
    else Written(WrittenAll(prior, stores[..|stores| - 1], h), stores[|stores| - 1], h)
  }

  lemma {:induction false} RunUnique(db: DB, stores: seq<Store>, ids: seq<QuestionId>)
    requires |ids| == |stores| && UniqueHashes(db.rows) && NewIds(db, stores, ids)
    ensures UniqueHashes(UpsertAll(db, stores, ids).rows)
  {
    if stores != [] {
      var n := |stores| - 1;
      RunUnique(db, stores[..n], ids[..n]);
      UpsertUnique(UpsertAll(db, stores[..n], ids[..n]), ids[n], stores[n]);
    }
  }

  lemma {:induction false} RunRow(db: DB, stores: seq<Store>, ids: seq<QuestionId>, h: Hash)
    requires |ids| == |stores| && UniqueHashes(db.rows) && NewIds(db, stores, ids)
    ensures RowOf(UpsertAll(db, stores, ids), h) == WrittenAll(RowOf(db, h), stores, h)
  {
    if stores != [] {
      var n := |stores| - 1;
      RunRow(db, stores[..n], ids[..n], h);
      RunUnique(db, stores[..n], ids[..n]);
      UpsertOne(UpsertAll(db, stores[..n], ids[..n]), ids[n], stores[n], h);
    }
  }

  lemma {:induction false} LastSnoc(init: seq<Store>, s: Store, h: Hash)
    ensures LastFor(init + [s], h, false) == if s.q.hash == h then |init| else LastFor(init, h, false)
    ensures LastFor(init + [s], h, true) == if Carries(s, h, true) then |init| else LastFor(init, h, true)
    ensures LastFor(init, h, false) < 0 ==> LastFor(init, h, true) < 0
    ensures FirstFor(init, h) < |init| <==> LastFor(init, h, false) >= 0
    ensures FirstFor(init + [s], h) ==
      if FirstFor(init, h) < |init| then FirstFor(init, h) else if s.q.hash == h then |init| else |init| + 1
  {
    assert (init + [s])[..|init|] == init;
  }

  lemma {:induction false} RunId(db: DB, stores: seq<Store>, ids: seq<QuestionId>, h: Hash)
    requires |ids| == |stores| && UniqueHashes(db.rows) && NewIds(db, stores, ids)
    ensures IdOf(UpsertAll(db, stores, ids).rows, h) == LastWinsId(IdOf(db.rows, h), stores, ids, h)
  {
    if stores != [] {
      var n := |stores| - 1;
      RunId(db, stores[..n], ids[..n], h);
      RunUnique(db, stores[..n], ids[..n]);
      UpsertId(UpsertAll(db, stores[..n], ids[..n]), ids[n], stores[n], h);
      LastSnoc(stores[..n], stores[n], h);
      assert stores == stores[..n] + [stores[n]];
    }
  }

  lemma {:induction false} LastWinsStep(prior: Option<Row>, init: seq<Store>, s: Store, h: Hash)
    requires s.q.status.Verified? && (prior.Some? ==> prior.value.hash == h)
    ensures LastWinsRow(prior, init + [s], h) == Written(LastWinsRow(prior, init, h), s, h)
  {
    LastSnoc(init, s, h);
    var all := init + [s];
    assert all[|init|] == s;
    var last, vec, first := LastFor(init, h, false), LastFor(init, h, true), FirstFor(init, h);
    assert last >= 0 ==> all[last] == init[last];
    assert vec >= 0 ==> all[vec] == init[vec];
    assert first < |init| ==> all[first] == init[first];
  }

  lemma {:induction false} WrittenLast(prior: Option<Row>, stores: seq<Store>, h: Hash)
    requires AllVerified(stores) && (prior.Some? ==> prior.value.hash == h)
    ensures WrittenAll(prior, stores, h) == LastWinsRow(prior, stores, h)
  {
    if stores != [] {
      var init, s := stores[..|stores| - 1], stores[|stores| - 1];
      WrittenLast(prior, init, h);
      LastWinsStep(prior, init, s, h);
      assert stores == init + [s];
    }
  }

  // The run refines the last-wins map, hash by hash.
  lemma {:induction false} LastWins(db: DB, stores: seq<Store>, ids: seq<QuestionId>, h: Hash)
    requires |ids| == |stores| && UniqueHashes(db.rows) && NewIds(db, stores, ids) && AllVerified(stores)
    ensures var next := UpsertAll(db, stores, ids);
      && UniqueHashes(next.rows)
      && RowOf(next, h) == LastWinsRow(RowOf(db, h), stores, h)
      && IdOf(next.rows, h) == LastWinsId(IdOf(db.rows, h), stores, ids, h)
  {
    RunUnique(db, stores, ids);
    RunRow(db, stores, ids, h);
    RunId(db, stores, ids, h);
    WrittenLast(RowOf(db, h), stores, h);
  }

  /* ---- created and updated ---- */

  // The distinct hashes of the run that the store did not hold.
  function NewHashes(rows: Rows, stores: seq<Store>): set<Hash> {
    set k | 0 <= k < |stores| && !HashTaken(rows, stores[k].q.hash) :: stores[k].q.hash
  }

  lemma {:induction false} NewHashesSnoc(rows: Rows, init: seq<Store>, s: Store)
    ensures NewHashes(rows, init + [s]) ==
      NewHashes(rows, init) + (if HashTaken(rows, s.q.hash) then {} else {s.q.hash})
  {
    var all := init + [s];
    assert all[|init|] == s;
    assert forall k :: 0 <= k < |init| ==> all[k] == init[k];
  }

  lemma {:induction false} TakenAfter(db: DB, stores: seq<Store>, ids: seq<QuestionId>, h: Hash)
    requires |ids| == |stores| && UniqueHashes(db.rows) && NewIds(db, stores, ids)
    ensures var next := UpsertAll(db, stores, ids);
      && (HashTaken(next.rows, h) <==> HashTaken(db.rows, h) || h in NewHashes(db.rows, stores))
  {
    if stores != [] {
      var n := |stores| - 1;
      TakenAfter(db, stores[..n], ids[..n], h);
      RunUnique(db, stores[..n], ids[..n]);
      UpsertId(UpsertAll(db, stores[..n], ids[..n]), ids[n], stores[n], h);
      NewHashesSnoc(db.rows, stores[..n], stores[n]);
      assert stores == stores[..n] + [stores[n]];
    }
  }

  // A statement reports an insert exactly when it adds to the new hashes.
  lemma {:induction false} CreatedStep(db: DB, stores: seq<Store>, ids: seq<QuestionId>, s: Store)
    requires |ids| == |stores| && UniqueHashes(db.rows) && NewIds(db, stores, ids)
    ensures |NewHashes(db.rows, stores + [s])| ==
      |NewHashes(db.rows, stores)| + (if HashTaken(UpsertAll(db, stores, ids).rows, s.q.hash) then 0 else 1)
  {
    TakenAfter(db, stores, ids, s.q.hash);
    NewHashesSnoc(db.rows, stores, s);
    if HashTaken(db.rows, s.q.hash) || s.q.hash in NewHashes(db.rows, stores) {
      assert NewHashes(db.rows, stores + [s]) == NewHashes(db.rows, stores);
    }
  }

  /* ---- importing again ---- */

  // Equal but for who verified it, when, and the vector.
  predicate SameContent(a: Row, b: Row) {
    a.(embedding := None, verifiedAt := None, verifiedBy := None)
      == b.(embedding := None, verifiedAt := None, verifiedBy := None)
  }

  predicate SameStores(a: seq<Store>, b: seq<Store>) {
    |a| == |b| && forall k :: 0 <= k < |a| ==> SameContent(a[k].q, b[k].q)
  }

  predicate SameVectors(a: seq<Store>, b: seq<Store>) {
    |a| == |b| && forall k :: 0 <= k < |a| ==> a[k].q.embedding == b[k].q.embedding
  }

  lemma {:induction false} SameLast(a: seq<Store>, b: seq<Store>, h: Hash)
    requires SameStores(a, b)
    ensures LastFor(a, h, false) == LastFor(b, h, false)
    ensures SameVectors(a, b) ==> LastFor(a, h, true) == LastFor(b, h, true)
  {
    assert forall k :: 0 <= k < |a| ==> a[k].q.hash == b[k].q.hash;
  }

  // Replaying stores over what they left changes no content.
  lemma {:induction false} LastWinsTwice(prior: Option<Row>, first: seq<Store>, second: seq<Store>, h: Hash)
    requires SameStores(first, second)
    ensures var once := LastWinsRow(prior, first, h);
      var twice := LastWinsRow(once, second, h);
      && twice.Some? == once.Some?
      && (once.Some? ==> SameContent(twice.value, once.value))
      && (once.Some? && SameVectors(first, second) ==> twice.value.embedding == once.value.embedding)
  {
    SameLast(first, second, h);
    var last := LastFor(first, h, false);
    assert last >= 0 ==> SameContent(first[last].q, second[last].q);
  }

  lemma {:induction false} NothingNew(db: DB, first: seq<Store>, ids: seq<QuestionId>, second: seq<Store>)
    requires |ids| == |first| && SameStores(first, second)
    requires UniqueHashes(db.rows) && NewIds(db, first, ids)
    ensures NewHashes(UpsertAll(db, first, ids).rows, second) == {}
  {
    forall k | 0 <= k < |second| ensures HashTaken(UpsertAll(db, first, ids).rows, second[k].q.hash) {
      assert SameContent(first[k].q, second[k].q);
      TakenAfter(db, first, ids, second[k].q.hash);
      assert HashTaken(db.rows, first[k].q.hash) || first[k].q.hash in NewHashes(db.rows, first);
    }
  }

  // Importing the same content again creates nothing, keeps every key and changes no content; with the
  // same vectors it changes nothing but who verified the rows and when.
  lemma {:induction false} Reimport(
      db: DB, first: seq<Store>, firstIds: seq<QuestionId>, second: seq<Store>, secondIds: seq<QuestionId>, h: Hash)
    requires |firstIds| == |first| && |secondIds| == |second| && SameStores(first, second)
    requires UniqueHashes(db.rows) && AllVerified(first)
    requires NewIds(db, first, firstIds) && NewIds(UpsertAll(db, first, firstIds), second, secondIds)
    ensures var once := UpsertAll(db, first, firstIds);
      var twice := UpsertAll(once, second, secondIds);
      && NewHashes(once.rows, second) == {}
      && IdOf(twice.rows, h) == IdOf(once.rows, h)
      && RowOf(twice, h).Some? == RowOf(once, h).Some?
      && (RowOf(once, h).Some? ==> SameContent(RowOf(twice, h).value, RowOf(once, h).value))
      && (RowOf(once, h).Some? && SameVectors(first, second) ==>
        RowOf(twice, h).value.embedding == RowOf(once, h).value.embedding)
  {
    var once := UpsertAll(db, first, firstIds);
    LastWins(db, first, firstIds, h);
    assert AllVerified(second) by {
      assert forall k :: 0 <= k < |second| ==> SameContent(first[k].q, second[k].q);
    }
    LastWins(once, second, secondIds, h);
    LastWinsTwice(RowOf(db, h), first, second, h);
    SameLast(first, second, h);
    NothingNew(db, first, firstIds, second);
  }
}
