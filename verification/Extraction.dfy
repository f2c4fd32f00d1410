/** What the extractor and the verifier hand to the pipeline, and what a stored row has to do with it. */
module Extraction {
  import opened Wrappers
  import opened Questions
  import opened Repository
  import opened Labels
  import opened Drafts
  import opened Normalize
  import D = Dedup

  datatype ExtractedQuestion = ExtractedQuestion(
    number: int, text: string, choices: seq<Answer>, answers: seq<Answer>, confidence: real, tags: seq<string>)

  // One question of the extractor model's output: choices as plain strings.
  datatype QuestionDTO = QuestionDTO(
    number: int, question: string, choices: seq<string>, answers: seq<Answer>, confidence: real, tags: seq<string>)

  // The choices get ids in the style of the answers' ids; everything else is carried over.
  method ToPipeline(questions: seq<QuestionDTO>) returns (qs: seq<ExtractedQuestion>)
    ensures |qs| == |questions|
    ensures forall i :: 0 <= i < |qs| ==>
      var d := questions[i];
      && qs[i].number == d.number && qs[i].text == d.question && qs[i].answers == d.answers
      && qs[i].confidence == d.confidence && qs[i].tags == d.tags
      && qs[i].choices == Extracted(d.choices, d.answers)
  {
    var out := new ExtractedQuestion[|questions|](_ => ExtractedQuestion(0, "", [], [], 0.0, []));
    for i := 0 to |questions|
      invariant forall k :: 0 <= k < i ==>
        var d := questions[k];
        out[k] == ExtractedQuestion(
          d.number, d.question, Extracted(d.choices, d.answers), d.answers, d.confidence, d.tags)
    {
      var d := questions[i];
      var choices := AssignChoiceIds(d.choices, DetectChoiceLabeling(d.answers));
      out[i] := ExtractedQuestion(d.number, d.question, choices[..], d.answers, d.confidence, d.tags);
    }
    qs := out[..];
  }

  datatype VerifiedQuestion = VerifiedQuestion(
    index: int, answers: seq<Answer>, confidence: real, explanation: string)

  // One entry of the verifier model's output.
  datatype VerifiedDTO = VerifiedDTO(answers: seq<Answer>, confidence: real, explanation: string)

  // The verifier's results by position, up to the number of questions sent.
  method ToResults(questions: seq<VerifiedDTO>, inputCount: nat) returns (results: seq<VerifiedQuestion>)
    ensures |results| == if |questions| < inputCount then |questions| else inputCount
    ensures forall i :: 0 <= i < |results| ==>
      && results[i].index == i && results[i].answers == questions[i].answers
      && results[i].confidence == questions[i].confidence && results[i].explanation == questions[i].explanation
  {
    results := [];
    for i := 0 to |questions|
      invariant |results| == i <= inputCount
      invariant forall k :: 0 <= k < i ==>
        results[k] == VerifiedQuestion(k, questions[k].answers, questions[k].confidence, questions[k].explanation)
    {
      if i >= inputCount {
        break;
      }
      var q := questions[i];
      results := results + [VerifiedQuestion(i, q.answers, q.confidence, q.explanation)];
    }
  }

  // `embed` is None when the embedder is not configured or fails for the text; `digest` is SHA-256.
  datatype Services = Services(
    unicode: Unicode, digit: char -> bool, digest: string -> Hash, embed: string -> Option<Vec>, metric: Metric)
  {
    function Norm(q: ExtractedQuestion): string {
      NormalizeQuestion(unicode, q.text)
    }

    function Hash(q: ExtractedQuestion): Hash {
      digest(Norm(q))
    }

    function NewRow(q: ExtractedQuestion): Row {
      Row(q.number, q.text, Norm(q), Hash(q), AnswerTexts(q.choices), AnswerTexts(q.answers),
          InferChoiceLabeling(digit, AnswerIds(q.choices)), InferQuestionType(AnswerTexts(q.choices)), 0.0, "",
          embed(q.text), Moderation, None, None, TagSet(["ai-generated"] + q.tags))
    }

    function Item(q: ExtractedQuestion): (r: D.Item)
      ensures r.hash == Hash(q) && r.embedding == embed(q.text)
    {
      D.Lasting(NewRow(q))
    }

    function Items(qs: seq<ExtractedQuestion>): (r: seq<D.Item>)
      ensures |r| == |qs| && forall i :: 0 <= i < |qs| ==> r[i] == Item(qs[i])
    {
      seq(|qs|, i requires 0 <= i < |qs| => Item(qs[i]))
    }
  }

  /* ---- what a stored row has to do with its extraction ---- */

  predicate HoldsTexts(texts: seq<string>, answers: seq<Answer>) {
    |texts| == |answers| && forall k :: 0 <= k < |answers| ==> texts[k] == answers[k].text
  }

  predicate IsFirstId(choices: seq<Answer>, k: nat)
    requires k < |choices|
  {
    choices[k].id != "" && forall j :: 0 <= j < k ==> choices[j].id == ""
  }

  // Numbers, exactly when the first id that is not empty begins with a digit.
  predicate NumbersFirst(digit: char -> bool, choices: seq<Answer>) {
    exists k :: 0 <= k < |choices| && IsFirstId(choices, k) && digit(choices[k].id[0])
  }

  // What creation fixes: everything but answers, confidence and explanation.
  ghost predicate CreatedFrom(sv: Services, r: Row, eq: ExtractedQuestion) {
    && r.number == eq.number && r.text == eq.text
    && r.norm == NormalizeQuestion(sv.unicode, eq.text) && r.hash == sv.digest(r.norm)
    && HoldsTexts(r.choices, eq.choices)
    && (r.labeling == Number <==> NumbersFirst(sv.digit, eq.choices))
    && (r.qtype == FreeResponse <==> eq.choices == [])
    && r.embedding == sv.embed(eq.text)
    && r.status == Moderation && r.verifiedAt == None && r.verifiedBy == None
    && (forall t :: t in r.tags <==> t == "ai-generated" || t in eq.tags)
  }

  predicate Unverified(r: Row, eq: ExtractedQuestion) {
    HoldsTexts(r.answers, eq.answers) && r.confidence == 0.0 && r.explanation == ""
  }

  // The verifier's answers, exactly when it has some and either nothing was marked or it is confident.
  predicate VerifiedBy(r: Row, eq: ExtractedQuestion, d: VerifiedDTO) {
    && r.confidence == d.confidence && r.explanation == d.explanation
    && (if d.answers != [] && (eq.answers == [] || d.confidence >= 0.80) then HoldsTexts(r.answers, d.answers)
        else HoldsTexts(r.answers, eq.answers))
  }

  // The k-th new question after verification; a confidence the column cannot hold is not written.
  predicate Settled(r: Row, eq: ExtractedQuestion, k: nat, verified: Option<seq<VerifiedDTO>>) {
    if verified.Some? && k < |verified.value| && -9.995 < verified.value[k].confidence < 9.995
    then VerifiedBy(r, eq, verified.value[k]) else Unverified(r, eq)
  }

  lemma {:induction false} LabelingOfIds(digit: char -> bool, choices: seq<Answer>)
    ensures InferChoiceLabeling(digit, AnswerIds(choices)) == Number <==> NumbersFirst(digit, choices)
  {
    if choices != [] {
      var rest := choices[1..];
      LabelingOfIds(digit, rest);
      assert AnswerIds(choices)[1..] == AnswerIds(rest);
      if choices[0].id == "" {
        forall k: nat | k < |rest| ensures IsFirstId(rest, k) <==> IsFirstId(choices, k + 1) {
          assert forall j :: 0 <= j < k ==> rest[j] == choices[j + 1];
          assert forall j :: 1 <= j < k + 1 ==> choices[j] == rest[j - 1];
        }
        if k :| 0 <= k < |choices| && IsFirstId(choices, k) && digit(choices[k].id[0]) {
          assert IsFirstId(rest, k - 1);
        }
        if k :| 0 <= k < |rest| && IsFirstId(rest, k) && digit(rest[k].id[0]) {
          assert IsFirstId(choices, k + 1);
        }
      } else {
        assert IsFirstId(choices, 0);
        assert forall k: nat :: 0 < k < |choices| ==> !IsFirstId(choices, k);
      }
    }
  }

  lemma {:induction false} NewRowContent(sv: Services, eq: ExtractedQuestion)
    ensures CreatedFrom(sv, sv.NewRow(eq), eq) && Unverified(sv.NewRow(eq), eq)
  {
    LabelingOfIds(sv.digit, eq.choices);
    var tags := ["ai-generated"] + eq.tags;
    forall t ensures t in TagSet(tags) <==> t == "ai-generated" || t in eq.tags {
      assert tags[0] == "ai-generated";
    }
  }

  /* ---- labels, from extraction to display ---- */

  // A row created from an extractor's question shows each choice under the id it was extracted with,
  // exactly when the text did not occur earlier and a letter was enough; the labeling is read off the
  // first answer's id.
  lemma {:induction false} StoredLabels(
    sv: Services, r: Row, eq: ExtractedQuestion, choices: seq<string>, answers: seq<Answer>, i: nat)
    requires sv.digit('1') && !sv.digit('A') && i < |choices|
    requires CreatedFrom(sv, r, eq) && eq.choices == Extracted(choices, answers)
    ensures r.choices == choices
    ensures r.labeling == Number <==> answers != [] && answers[0].id != "" && '0' <= answers[0].id[0] <= '9'
    ensures IdOfValue(r.choices, choices[i], r.labeling) == eq.choices[i].id
      <==> SameLabel(choices, i, r.labeling)
  {
    LabelingSurvives(sv.digit, choices, answers);
    LabelingOfIds(sv.digit, eq.choices);
    assert r.labeling == DetectChoiceLabeling(answers);
    assert r.choices == choices;
    ExtractionLabelsAgree(sv.digit, choices, answers, i);
  }
}
