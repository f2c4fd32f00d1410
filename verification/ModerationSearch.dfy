/** The search of the moderation queue: the listing's WHERE clause and what it selects. */
module ModerationSearch {
  import opened Wrappers
  import opened Questions
  import opened Search
  import opened JsonSearch

  // choices and answers are searched through the text of their JSON arrays.
  datatype Listed = Listed(
    status: Status, text: string, choices: seq<string>, answers: seq<string>, tags: set<string>)

  predicate ModerationWhere(fold: char -> char, r: Listed, status: Option<Status>, search: string) {
    var pattern := "%" + EscapeLike(search) + "%";
    && (status.Some? ==> r.status == status.value)
    && (search != "" ==>
      || ILike(fold, r.text, pattern)
      || ILike(fold, JsonText(r.choices), pattern)
      || ILike(fold, JsonText(r.answers), pattern)
      || exists tag :: tag in r.tags && ILike(fold, tag, pattern))
  }

  lemma {:induction false} ModerationSearchExact(
      fold: char -> char, r: Listed, status: Option<Status>, search: string)
    requires FoldOk(fold)
    ensures ModerationWhere(fold, r, status, search) <==>
      && (status.None? || r.status == status.value)
      && (search == "" || Contains(fold, r.text, search) || Contains(fold, JsonText(r.choices), search)
          || Contains(fold, JsonText(r.answers), search)
          || exists tag :: tag in r.tags && Contains(fold, tag, search))
  {
    var pattern := "%" + EscapeLike(search) + "%";
    forall t ensures ILike(fold, t, pattern) <==> Contains(fold, t, search) {
      SearchIsLiteral(fold, t, search);
      ContainsIffOccurs(fold, t, search);
    }
  }

  // For findable terms the listing selects by text, by choice, by answer and by tag.
  lemma {:induction false} ModerationSearchByElement(
      fold: char -> char, r: Listed, status: Option<Status>, search: string)
    requires FoldOk(fold) && FoldKeepsJson(fold) && AllPrintable(r.choices) && AllPrintable(r.answers)
    requires Findable(search)
    ensures ModerationWhere(fold, r, status, search) <==>
      && (status.None? || r.status == status.value)
      && (Contains(fold, r.text, search) || AnyContains(fold, r.choices, search)
          || AnyContains(fold, r.answers, search) || exists tag :: tag in r.tags && Contains(fold, tag, search))
  {
    ModerationSearchExact(fold, r, status, search);
    TextContainsIffElement(fold, r.choices, search);
    TextContainsIffElement(fold, r.answers, search);
  }
}
