/** The dedup loop among other writers: between any two of its statements the other workers, experts,
    imports and uploads may write to the same tables. */
module Interference {
  import opened Wrappers
  import opened Questions
  import opened Repository
  import opened Extraction
  import opened Pipeline
  import opened Restart

  // The loop's own next statement, or a write by somebody else.
  datatype Move = Own | Other(write: Write)

  datatype Loop = Loop(sv: Services, session: SessionId, image: ImageId, qs: seq<ExtractedQuestion>)

  predicate Removal(w: Write) {
    w.Delete? || w.RemoveUser?
  }

  predicate NoRemovals(moves: seq<Move>) {
    forall k :: 0 <= k < |moves| && moves[k].Other? ==> !Removal(moves[k].write)
  }

  // Image ids are not handed out twice.
  predicate NewImages(moves: seq<Move>, image: ImageId) {
    forall k :: 0 <= k < |moves| && moves[k].Other? && moves[k].write.Upload? ==> moves[k].write.image != image
  }

  // The image, while it exists, belongs to the loop's session.
  predicate OwnImage(db: DB, session: SessionId, image: ImageId) {
    image in db.images ==> db.images[image].session == session
  }

  ghost predicate Moved(x: Loop, p: Point, m: Move, q: Point) {
    match m
    case Own => Follows(x.sv, x.session, x.image, x.qs, p, q)
    case Other(w) => Enabled(p.db, w) && q == p.(db := Apply(p.db, w))
  }

  ghost predicate Among(x: Loop, trace: seq<Point>, moves: seq<Move>) {
    && |trace| == |moves| + 1 && trace[0].item == 0 && trace[0].at == AtExact
    && forall k :: 0 <= k < |moves| ==> Moved(x, trace[k], moves[k], trace[k + 1])
  }

  /* ---- the store invariant, whoever writes ---- */

  // A statement of a loop is itself a write, or none: other loops are among the other writers.
  lemma {:induction false} StatementIsWrite(
    sv: Services, session: SessionId, image: ImageId, eq: ExtractedQuestion, before: DB, at: At, after: DB, next: At)
    returns (w: Option<Write>)
    requires OwnImage(before, session, image) && Did(sv, session, image, eq, before, at, after, next)
    ensures w.None? ==> after == before
    ensures w.Some? ==> Enabled(before, w.value) && !Removal(w.value) && after == Apply(before, w.value)
    ensures w.Some? ==> !w.value.Upload?
  {
    w := None;
    if at.AtCreate? && next.AtLink? {
      w := Some(Create(next.question, sv.NewRow(eq)));
    } else if at.AtLink? && next.AtExact? {
      w := Some(LinkTo(Link(session, image, at.question), LinkInfo(eq.number, 0.0)));
    }
  }

  lemma {:induction false} WriteKeepsImage(db: DB, w: Write, session: SessionId, image: ImageId)
    requires OwnImage(db, session, image) && (w.Upload? ==> w.image != image)
    ensures OwnImage(Apply(db, w), session, image)
  {
    SessionsFixed(db, w);
  }

  lemma {:induction false} MoveKeepsInv(x: Loop, p: Point, m: Move, q: Point)
    requires Inv(p.db) && OwnImage(p.db, x.session, x.image) && Moved(x, p, m, q)
    requires m.Other? && m.write.Upload? ==> m.write.image != x.image
    ensures Inv(q.db) && OwnImage(q.db, x.session, x.image)
  {
    match m
    case Other(w) =>
      ApplyKeepsInv(p.db, w);
      WriteKeepsImage(p.db, w, x.session, x.image);
    case Own =>
      if p.item < |x.qs| {
        var w := StatementIsWrite(x.sv, x.session, x.image, x.qs[p.item], p.db, p.at, q.db, q.at);
        if w.Some? {
          ApplyKeepsInv(p.db, w.value);
          WriteKeepsImage(p.db, w.value, x.session, x.image);
        }
      }
  }

  lemma {:induction false} InvThroughout(x: Loop, trace: seq<Point>, moves: seq<Move>, k: nat)
    requires Among(x, trace, moves) && NewImages(moves, x.image) && k < |trace|
    requires Inv(trace[0].db) && OwnImage(trace[0].db, x.session, x.image)
    ensures Inv(trace[k].db) && OwnImage(trace[k].db, x.session, x.image)
  {
    if k > 0 {
      var n := k - 1;
      InvThroughout(x, trace, moves, n);
      var m := moves[n];
      assert m.Other? && m.write.Upload? ==> m.write.image != x.image;
      assert Moved(x, trace[n], m, trace[n + 1]);
      MoveKeepsInv(x, trace[n], m, trace[k]);
    }
  }

  /* ---- growth ---- */

  // Questions keep their hash, links stay, images stay with their session.
  ghost predicate Grows(a: DB, b: DB) {
    && (forall id :: id in a.rows ==> id in b.rows && b.rows[id].hash == a.rows[id].hash)
    && (forall l :: l in a.links ==> l in b.links)
    && (forall i :: i in a.images ==> i in b.images && b.images[i].session == a.images[i].session)
    && (forall s :: s in a.sessions ==> s in b.sessions)
  }

  lemma {:induction false} WriteGrows(db: DB, w: Write)
    requires Enabled(db, w) && !Removal(w)
    ensures Grows(db, Apply(db, w))
  {
    RowsStay(db, w);
    LinksStay(db, w);
    SessionsFixed(db, w);
  }

  lemma {:induction false} MoveGrows(x: Loop, p: Point, m: Move, q: Point)
    requires OwnImage(p.db, x.session, x.image) && Moved(x, p, m, q) && (m.Other? ==> !Removal(m.write))
    ensures Grows(p.db, q.db)
  {
    match m
    case Other(w) => WriteGrows(p.db, w);
    case Own =>
      if p.item < |x.qs| {
        var w := StatementIsWrite(x.sv, x.session, x.image, x.qs[p.item], p.db, p.at, q.db, q.at);
        if w.Some? {
          WriteGrows(p.db, w.value);
        }
      }
  }

  // A run of the loop among writers that remove nothing.
  ghost predicate Undisturbed(x: Loop, trace: seq<Point>, moves: seq<Move>) {
    && Among(x, trace, moves) && NoRemovals(moves)
    && Inv(trace[0].db) && JobOk(trace[0].db, x.session, x.image)
  }

  lemma {:induction false} MoveKeepsJob(x: Loop, p: Point, m: Move, q: Point)
    requires Inv(p.db) && JobOk(p.db, x.session, x.image)
    requires Moved(x, p, m, q) && (m.Other? ==> !Removal(m.write))
    ensures Inv(q.db) && JobOk(q.db, x.session, x.image) && Grows(p.db, q.db)
  {
    assert m.Other? && m.write.Upload? ==> m.write.image != x.image;
    MoveKeepsInv(x, p, m, q);
    MoveGrows(x, p, m, q);
  }

  lemma {:induction false} GrowsOn(a: DB, b: DB, c: DB)
    requires Grows(a, b) && Grows(b, c)
    ensures Grows(a, c)
  {
  }

  lemma {:induction false} NothingLost(x: Loop, trace: seq<Point>, moves: seq<Move>, j: nat, k: nat)
    requires Undisturbed(x, trace, moves) && j <= k < |trace|
    ensures Grows(trace[j].db, trace[k].db)
    ensures Inv(trace[k].db) && JobOk(trace[k].db, x.session, x.image)
    decreases k
  {
    if k > 0 {
      var n := k - 1;
      NothingLost(x, trace, moves, if j < k then j else n, n);
      assert Moved(x, trace[n], moves[n], trace[n + 1]);
      MoveKeepsJob(x, trace[n], moves[n], trace[k]);
      if j < k {
        GrowsOn(trace[j].db, trace[n].db, trace[k].db);
      }
    }
  }

  /* ---- coverage ---- */

  // The row has the item's hash, or was the nearest to it when the loop looked.
  ghost predicate Answers(x: Loop, trace: seq<Point>, k: nat, i: nat, q: QuestionId)
    requires k < |trace| && i < |x.qs|
  {
    var v := x.sv.embed(x.qs[i].text);
    && q in trace[k].db.rows
    && (trace[k].db.rows[q].hash == x.sv.Hash(x.qs[i]) ||
        (v.Some? && exists j :: 0 <= j <= k && IsNearest(x.sv.metric, trace[j].db.rows, v.value, q)))
  }

  ghost predicate LinkedBy(x: Loop, trace: seq<Point>, k: nat, i: nat)
    requires k < |trace| && i < |x.qs|
  {
    exists q :: Link(x.session, x.image, q) in trace[k].db.links && Answers(x, trace, k, i, q)
  }

  lemma {:induction false} AnswersStay(x: Loop, trace: seq<Point>, j: nat, k: nat, i: nat, q: QuestionId)
    requires j <= k < |trace| && i < |x.qs| && Answers(x, trace, j, i, q) && Grows(trace[j].db, trace[k].db)
    ensures Answers(x, trace, k, i, q)
  {
  }

  lemma {:induction false} LinkedStays(x: Loop, trace: seq<Point>, j: nat, k: nat, i: nat)
    requires j <= k < |trace| && i < |x.qs| && LinkedBy(x, trace, j, i) && Grows(trace[j].db, trace[k].db)
    ensures LinkedBy(x, trace, k, i)
  {
    var q :| Link(x.session, x.image, q) in trace[j].db.links && Answers(x, trace, j, i, q);
    AnswersStay(x, trace, j, k, i, q);
  }

  // What the loop has done before point k, and what it is about to link there.
  ghost predicate Done(x: Loop, trace: seq<Point>, k: nat)
    requires k < |trace|
  {
    var p := trace[k];
    && p.item <= |x.qs|
    && (forall i: nat :: i < p.item ==> LinkedBy(x, trace, k, i))
    && (p.item < |x.qs| && p.at.AtLink? ==> Answers(x, trace, k, p.item, p.at.question))
  }

  // The loop's own statement keeps up with what it has done.
  lemma {:induction false} OwnStepDone(x: Loop, trace: seq<Point>, k: nat)
    requires k + 1 < |trace| && Done(x, trace, k) && Moved(x, trace[k], Own, trace[k + 1])
    requires Inv(trace[k].db) && JobOk(trace[k].db, x.session, x.image) && Grows(trace[k].db, trace[k + 1].db)
    ensures Done(x, trace, k + 1)
  {
    var n := k + 1;
    var p, q := trace[k], trace[n];
    forall i: nat | i < p.item ensures LinkedBy(x, trace, n, i) {
      LinkedStays(x, trace, k, n, i);
    }
    if p.item < |x.qs| {
      if p.at.AtLink? {
        var l := Link(x.session, x.image, p.at.question);
        AnswersStay(x, trace, k, k + 1, p.item, p.at.question);
        assert LinkAllowed(p.db, l) && l in q.db.links;
        assert LinkedBy(x, trace, k + 1, p.item);
      } else if q.at.AtLink? {
        if p.at.AtSemantic? {
          assert IsNearest(x.sv.metric, trace[k].db.rows, x.sv.embed(x.qs[p.item].text).value, q.at.question);
        }
        assert Answers(x, trace, k + 1, p.item, q.at.question);
      }
    }
  }

  // Nobody else's write takes anything of it away.
  lemma {:induction false} OtherStepDone(x: Loop, trace: seq<Point>, k: nat, w: Write)
    requires k + 1 < |trace| && Done(x, trace, k) && Moved(x, trace[k], Other(w), trace[k + 1])
    requires Grows(trace[k].db, trace[k + 1].db)
    ensures Done(x, trace, k + 1)
  {
    var n := k + 1;
    forall i: nat | i < trace[n].item ensures LinkedBy(x, trace, n, i) {
      LinkedStays(x, trace, k, n, i);
    }
    if trace[n].item < |x.qs| && trace[n].at.AtLink? {
      AnswersStay(x, trace, k, n, trace[n].item, trace[n].at.question);
    }
  }

  // At every point, every item the loop is through with is linked for its session and image.
  lemma {:induction false} CoverageAmongWriters(x: Loop, trace: seq<Point>, moves: seq<Move>, k: nat)
    requires Undisturbed(x, trace, moves) && k < |trace|
    ensures Inv(trace[k].db) && Done(x, trace, k)
  {
    if k > 0 {
      var n := k - 1;
      CoverageAmongWriters(x, trace, moves, n);
      NothingLost(x, trace, moves, n, k);
      NothingLost(x, trace, moves, n, n);
      assert Moved(x, trace[n], moves[n], trace[n + 1]);
      match moves[n]
      case Own => OwnStepDone(x, trace, n);
      case Other(w) => OtherStepDone(x, trace, n, w);
    }
  }

  /* ---- when a loop stops ---- */

  predicate Searching(p: Point) {
    p.at.AtSemantic? || p.at.AtCreate?
  }

  // The exact lookup of the item the loop is at: it found nothing, and no own write has followed.
  ghost predicate IsLookup(x: Loop, trace: seq<Point>, moves: seq<Move>, j: nat, k: nat)
    requires j < k < |trace| == |moves| + 1 && trace[k].item < |x.qs|
  {
    && moves[j].Own? && trace[j].at.AtExact? && trace[j].item == trace[k].item
    && !HashTaken(trace[j].db.rows, x.sv.Hash(x.qs[trace[k].item])) && trace[j + 1].db == trace[j].db
    && forall m :: j < m <= k ==> Searching(trace[m]) && trace[m].item == trace[k].item
  }

  lemma {:induction false} LookupOf(x: Loop, trace: seq<Point>, moves: seq<Move>, k: nat) returns (j: nat)
    requires Among(x, trace, moves) && k < |trace| && trace[k].item < |x.qs| && Searching(trace[k])
    ensures j < k && IsLookup(x, trace, moves, j, k)
  {
    assert k > 0;
    assert Moved(x, trace[k - 1], moves[k - 1], trace[k - 1 + 1]);
    if Searching(trace[k - 1]) {
      j := LookupOf(x, trace, moves, k - 1);
    } else {
      j := k - 1;
    }
  }

  // Somebody else's write put the hash into the table.
  ghost predicate Inserts(trace: seq<Point>, moves: seq<Move>, h: Hash, m: nat)
    requires m < |moves| == |trace| - 1
  {
    && moves[m].Other?
    && !HashTaken(trace[m].db.rows, h) && HashTaken(trace[m + 1].db.rows, h)
  }

  // Only a create or an import does that, with a question of that hash.
  lemma {:induction false} WhoInserts(db: DB, w: Write, h: Hash)
    requires !HashTaken(db.rows, h) && HashTaken(Apply(db, w).rows, h)
    ensures (w.Create? || w.Import?) && w.row.hash == h
  {
    var id :| id in Apply(db, w).rows && Apply(db, w).rows[id].hash == h;
    if id in db.rows {
      assert db.rows[id].hash != h;
    }
  }

  lemma {:induction false} TakenStays(a: DB, b: DB, h: Hash)
    requires Grows(a, b) && HashTaken(a.rows, h)
    ensures HashTaken(b.rows, h)
  {
    var id :| id in a.rows && a.rows[id].hash == h;
    assert id in b.rows && b.rows[id].hash == h;
  }

  // Between the lookup and a later point the hash got taken exactly by such a write.
  lemma {:induction false} TakenSince(x: Loop, trace: seq<Point>, moves: seq<Move>, j: nat, k: nat)
    requires Undisturbed(x, trace, moves) && j < k < |trace| && trace[k].item < |x.qs|
    requires IsLookup(x, trace, moves, j, k)
    ensures var h := x.sv.Hash(x.qs[trace[k].item]);
      HashTaken(trace[k].db.rows, h) <==> exists m: nat :: j < m < k && Inserts(trace, moves, h, m)
  {
    var h := x.sv.Hash(x.qs[trace[k].item]);
    if m: nat :| j < m < k && Inserts(trace, moves, h, m) {
      NothingLost(x, trace, moves, m + 1, k);
      TakenStays(trace[m + 1].db, trace[k].db, h);
    }
    if HashTaken(trace[k].db.rows, h) && j + 1 < k {
      var n := k - 1;
      assert Moved(x, trace[n], moves[n], trace[n + 1]);
      assert IsLookup(x, trace, moves, j, n);
      TakenSince(x, trace, moves, j, n);
      if !HashTaken(trace[n].db.rows, h) {
        assert Inserts(trace, moves, h, n);
      }
    }
  }

  // A create is refused exactly when, between the item's lookup and its create, another writer inserted
  // the same hash; nothing else stops a loop while nothing is removed.
  lemma {:induction false} StopsIff(x: Loop, trace: seq<Point>, moves: seq<Move>, k: nat) returns (j: nat)
    requires Undisturbed(x, trace, moves) && k < |moves| && moves[k].Own?
    requires trace[k].item < |x.qs| && trace[k].at.AtCreate?
    ensures j < k && IsLookup(x, trace, moves, j, k)
    ensures var h := x.sv.Hash(x.qs[trace[k].item]);
      trace[k + 1].at == Stopped(Duplicate) <==> exists m: nat :: j < m < k && Inserts(trace, moves, h, m)
    ensures trace[k + 1].at.Stopped? ==> trace[k + 1].at == Stopped(Duplicate)
  {
    j := LookupOf(x, trace, moves, k);
    TakenSince(x, trace, moves, j, k);
    assert Moved(x, trace[k], moves[k], trace[k + 1]);
  }

  lemma {:induction false} OnlyCreatesStop(x: Loop, trace: seq<Point>, moves: seq<Move>, k: nat)
    requires Undisturbed(x, trace, moves) && k < |moves|
    requires !trace[k].at.Stopped? && trace[k + 1].at.Stopped?
    ensures moves[k].Own? && trace[k].item < |x.qs| && trace[k].at.AtCreate?
  {
    CoverageAmongWriters(x, trace, moves, k);
    NothingLost(x, trace, moves, k, k);
    assert Moved(x, trace[k], moves[k], trace[k + 1]);
  }

  /* ---- progress ---- */

  function OwnMoves(moves: seq<Move>): nat {
    if moves == [] then 0
    else OwnMoves(moves[..|moves| - 1]) + if moves[|moves| - 1].Own? then 1 else 0
  }

  // The count is the number of positions that hold a move of the loop's own.
  lemma {:induction false} OwnMovesCounted(moves: seq<Move>)
    ensures OwnMoves(moves) == |set n | 0 <= n < |moves| && moves[n].Own?|
  {
    var all := set n | 0 <= n < |moves| && moves[n].Own?;
    if moves == [] {
      assert all == {};
    } else {
      var m := |moves| - 1;
      var before := set n | 0 <= n < |moves[..m]| && moves[..m][n].Own?;
      OwnMovesCounted(moves[..m]);
      assert all == before + if moves[m].Own? then {m} else {};
    }
  }

  function Reached(p: Point): nat {
    4 * p.item + match p.at
      case AtExact => 0
      case AtSemantic => 1
      case AtCreate => 2
      case AtLink(_) => 3
      case Stopped(_) => 0
  }

  // Four own statements an item are enough: then the loop is through, or has been stopped.
  lemma {:induction false} ProgressAmongWriters(x: Loop, trace: seq<Point>, moves: seq<Move>)
    requires Among(x, trace, moves)
    ensures var p := trace[|moves|];
      p.item >= |x.qs| || p.at.Stopped? || Reached(p) >= OwnMoves(moves)
  {
    if moves != [] {
      var n := |moves| - 1;
      ProgressAmongWriters(x, trace[..n + 1], moves[..n]);
      assert Moved(x, trace[n], moves[n], trace[n + 1]);
    }
  }

  lemma {:induction false} EndsCovered(x: Loop, trace: seq<Point>, moves: seq<Move>)
    requires Undisturbed(x, trace, moves) && OwnMoves(moves) >= 4 * |x.qs|
    ensures var p := trace[|moves|];
      p.at.Stopped? || forall i: nat :: i < |x.qs| ==> LinkedBy(x, trace, |moves|, i)
  {
    ProgressAmongWriters(x, trace, moves);
    CoverageAmongWriters(x, trace, moves, |moves|);
  }

  /* ---- the race ---- */

  // Two workers look up the same new question before either creates it: the second one's create is
  // refused, its loop ends in an error, and its image keeps no link to the question.
  lemma {:induction false} SecondCreateLoses(x: Loop, db: DB, id: QuestionId, row: Row)
    returns (trace: seq<Point>, moves: seq<Move>)
    requires Inv(db) && JobOk(db, x.session, x.image) && |x.qs| == 1
    requires var eq := x.qs[0];
      x.sv.embed(eq.text).None? && !HashTaken(db.rows, x.sv.Hash(eq))
      && id !in db.rows && RowOk(row) && row.hash == x.sv.Hash(eq)
    ensures Undisturbed(x, trace, moves) && trace[0].db == db
    ensures moves == [Own, Other(Create(id, row)), Own] && trace[3].at == Stopped(Duplicate)
    ensures Link(x.session, x.image, id) !in trace[3].db.links && IdOf(trace[3].db.rows, row.hash) == Some(id)
  {
    var after := Insert(db, id, row);
    trace := [Point(db, 0, AtExact), Point(db, 0, AtCreate), Point(after, 0, AtCreate),
              Point(after, 0, Stopped(Duplicate))];
    moves := [Own, Other(Create(id, row)), Own];
    assert IdOf(db.rows, x.sv.Hash(x.qs[0])).None?;
    assert id in after.rows && after.rows[id].hash == row.hash;
    assert forall l :: l in db.links ==> LinkOk(db, l);
    ApplyKeepsInv(db, Create(id, row));
    IdOfHash(after.rows, id);
  }
}
