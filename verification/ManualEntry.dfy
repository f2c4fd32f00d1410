/** Questions an expert writes by hand, bypassing the image pipeline. */
module ManualEntry {
  import opened Wrappers
  import opened Normalize
  import opened Questions
  import opened Drafts
  import opened Repository

  // An empty labeling means letters, a missing confidence 0.99.
  datatype Request = Request(
    question: string, qtype: QuestionType, choices: seq<string>, answers: seq<string>, labeling: string,
    explanation: string, tags: seq<string>, confidence: Option<real>)

  datatype ManualError = Malformed | Conflict(existing: QuestionId) | Internal(error: RepoError)

  function LabelingOrDefault(labeling: string): string {
    if labeling == "" then LabelingText(Letter) else labeling
  }

  predicate Acceptable(req: Request) {
    && "" !in req.choices
    && (req.labeling == "" || req.labeling == "letter" || req.labeling == "number")
    && WellFormed(req.question, req.choices, req.answers, req.qtype)
    && (req.confidence.Some? ==> 0.0 <= req.confidence.value <= 1.0)
  }

  function ManualTags(req: Request): seq<string> {
    req.tags + ["manual-entry"]
  }

  // The row an accepted request is stored as: verified by its author from the start.
  function ManualRow(e: Env, req: Request, vec: Option<Vec>): (r: Row)
    requires Acceptable(req)
    ensures RowOk(r) && r.status.Verified? && r.verifiedBy == Some(e.user) && ConfidenceFits(r.confidence)
    ensures WellFormed(r.text, r.choices, r.answers, r.qtype)
    ensures r.norm == NormalizeQuestion(e.unicode, r.text) && r.hash == e.digest(r.norm)
    ensures "manual-entry" in r.tags
  {
    var norm := NormalizeQuestion(e.unicode, req.question);
    assert "manual-entry" == ManualTags(req)[|req.tags|];
    Row(0, req.question, norm, e.digest(norm), req.choices, req.answers,
        LabelingOf(LabelingOrDefault(req.labeling)).value, req.qtype,
        if req.confidence.Some? then req.confidence.value else 0.99, req.explanation, vec, Verified,
        Some(e.now), Some(e.user), TagSet(ManualTags(req)))
  }

  // The stored question, column by column.
  predicate EnteredAs(e: Env, req: Request, vec: Option<Vec>, r: Row) {
    && r.number == 0 && r.text == req.question && r.choices == req.choices && r.answers == req.answers
    && r.norm == NormalizeQuestion(e.unicode, req.question) && r.hash == e.digest(r.norm)
    && (r.labeling == Number <==> req.labeling == "number") && r.qtype == req.qtype
    && r.confidence == (if req.confidence.Some? then req.confidence.value else 0.99)
    && r.explanation == req.explanation && r.embedding == vec
    && r.status == Verified && r.verifiedAt == Some(e.now) && r.verifiedBy == Some(e.user)
    && r.tags == (set t | t in req.tags) + {"manual-entry"}
  }

  lemma {:induction false} ManualRowIs(e: Env, req: Request, vec: Option<Vec>)
    requires Acceptable(req)
    ensures EnteredAs(e, req, vec, ManualRow(e, req, vec))
  {
    var tags := ManualTags(req);
    assert TagSet(tags) == (set t | t in req.tags) + {"manual-entry"} by {
      assert tags[|req.tags|] == "manual-entry";
    }
  }

  method Create(repo: QuestionRepo, e: Env, req: Request, vec: Option<Vec>)
    returns (r: Result<QuestionId, ManualError>)
    requires UniqueHashes(repo.rows)
    modifies repo`rows
    ensures r.Ok? <==> Acceptable(req) && !HashTaken(old(repo.rows), ManualRow(e, req, vec).hash)
    ensures r.Ok? ==> r.value !in old(repo.rows)
    ensures r.Ok? ==> r.value in repo.rows && EnteredAs(e, req, vec, repo.rows[r.value])
    ensures r.Ok? ==> repo.State() == Insert(old(repo.State()), r.value, ManualRow(e, req, vec))
    ensures r.Err? ==> repo.State() == old(repo.State())
    ensures r.Err? && !Acceptable(req) ==> r.error == Malformed
    ensures r.Err? && Acceptable(req) ==>
      r.error == Conflict(IdOf(old(repo.rows), ManualRow(e, req, vec).hash).value)
  {
    if "" in req.choices {
      return Err(Malformed);
    }
    if req.labeling != "" && req.labeling != LabelingText(Letter) && req.labeling != LabelingText(Number) {
      return Err(Malformed);
    }
    var valid := ValidateDraft(req.question, req.choices, req.answers, req.qtype);
    if valid.Err? {
      return Err(Malformed);
    }
    if req.confidence.Some? && (req.confidence.value < 0.0 || req.confidence.value > 1.0) {
      return Err(Malformed);
    }
    var row := ManualRow(e, req, vec);
    ManualRowIs(e, req, vec);
    var existing := repo.FindExact(row.hash);
    if existing.Some? {
      return Err(Conflict(existing.value));
    }
    var created := repo.Create(row, LabelingOrDefault(req.labeling), ManualTags(req));
    match created {
      case Ok(id) => r := Ok(id);
      case Err(error) => r := Err(Internal(error));
    }
  }
}
