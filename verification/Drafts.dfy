/** The structural rules every question draft has to meet, shared by the handlers and the importer. */
module Drafts {
  import opened Wrappers
  import opened Normalize
  import opened Questions

  // What a draft is turned into a question with: the text rules, the author and the time.
  datatype Env = Env(unicode: Unicode, digest: string -> Hash, user: UserId, now: int)

  predicate AnswersWithin(answers: seq<string>, choices: seq<string>) {
    forall a :: a in answers ==> a in choices
  }

  // What an accepted draft looks like.
  predicate WellFormed(text: string, choices: seq<string>, answers: seq<string>, typ: QuestionType) {
    && text != "" && answers != []
    && (typ.MultipleChoice? ==> |choices| >= 2 && AnswersWithin(answers, choices))
    && (typ.FreeResponse? ==> choices == [])
  }

  function ValidateDraft(text: string, choices: seq<string>, answers: seq<string>, typ: QuestionType)
    : (r: Result<(), string>)
    ensures r.Ok? <==> WellFormed(text, choices, answers, typ)
    ensures r.Ok? <==>
      && text != "" && |answers| >= 1
      && (typ == MultipleChoice ==> |choices| >= 2 && forall a :: a in answers ==> a in choices)
      && (typ == FreeResponse ==> |choices| == 0)
  {
    if text == "" then Err("question text is required")
    else if |answers| < 1 then Err("at least one answer is required")
    else
      match typ
      case MultipleChoice =>
        if |choices| < 2 then Err("multiple_choice requires at least 2 choices")
        else if !AnswersWithin(answers, choices) then Err("answers must be a subset of choices")
        else Ok(())
      case FreeResponse =>
        if |choices| != 0 then Err("free_response must not have choices") else Ok(())
  }

  method AnswersSubsetOfChoices(answers: seq<string>, choices: seq<string>) returns (within: bool)
    ensures within <==> AnswersWithin(answers, choices)
  {
    for i := 0 to |answers|
      invariant forall k :: 0 <= k < i ==> answers[k] in choices
    {
      var found := false;
      for j := 0 to |choices|
        invariant !found && answers[i] !in choices[..j]
      {
        if answers[i] == choices[j] {
          found := true;
          break;
        }
      }
      if !found {
        assert choices[..|choices|] == choices;
        assert answers[i] in answers;
        return false;
      }
    }
    within := true;
  }

  function InferQuestionType(choices: seq<string>): QuestionType {
    if choices == [] then FreeResponse else MultipleChoice
  }
}
