/** Answer ids: the labels assigned to choices at extraction, the labels shown at read time, and
    their decoders. Only the choice texts and the labeling are stored in between. */
module Labels {
  import opened Questions
  import opened Drafts

  predicate IsLetter(c: char) {
    'A' <= c <= 'Z'
  }

  predicate AllLetters(s: string) {
    forall i :: 0 <= i < |s| ==> IsLetter(s[i])
  }

  function LetterOf(d: nat): (c: char)
    requires d < 26
    ensures IsLetter(c) && c as int == 'A' as int + d
  {
    'A' + d as char
  }

  // Spreadsheet column labels: A..Z, AA..AZ, BA, ...
  function Letters(i: nat): (s: string)
    ensures s != "" && AllLetters(s)
    ensures |s| == 1 <==> i < 26
  {
    if i < 26 then [LetterOf(i)] else Letters(i / 26 - 1) + [LetterOf(i % 26)]
  }

  // The label of n - 1, or nothing when no digit is left.
  function Prefix(n: nat): string {
    if n == 0 then "" else Letters(n - 1)
  }

  lemma {:induction false} PrefixStep(n: nat, s: string)
    requires n > 0
    ensures Prefix(n) + s == Prefix((n - 1) / 26) + ([LetterOf((n - 1) % 26)] + s)
  {
    assert Prefix(n) == Prefix((n - 1) / 26) + [LetterOf((n - 1) % 26)];
  }

  method IndexToLetter(i: nat) returns (s: string)
    ensures s == Letters(i)
  {
    var n := i + 1;
    s := "";
    while n > 0
      invariant n >= 0
      invariant Letters(i) == Prefix(n) + s
    {
      PrefixStep(n, s);
      n := n - 1;
      s := [LetterOf(n % 26)] + s;
      n := n / 26;
    }
  }

  // Bijective base 26, counting from 1.
  function LetterValue(s: string): nat
    requires AllLetters(s)
  {
    if s == "" then 0
    else 26 * LetterValue(s[..|s| - 1]) + (s[|s| - 1] as int - 'A' as int + 1)
  }

  function DecodeLetters(s: string): nat
    requires AllLetters(s) && s != ""
  {
    LetterValue(s) - 1
  }

  lemma {:induction false} LettersDecode(i: nat)
    ensures DecodeLetters(Letters(i)) == i
  {
    var s := Letters(i);
    if i < 26 {
      assert s == [LetterOf(i)] && s[..|s| - 1] == "";
      assert LetterValue("") == 0;
    } else {
      assert s[..|s| - 1] == Letters(i / 26 - 1);
      LettersDecode(i / 26 - 1);
    }
  }

  lemma {:induction false} DecodedLetters(s: string)
    requires AllLetters(s) && s != ""
    ensures Letters(DecodeLetters(s)) == s
    decreases |s|
  {
    var init, last := s[..|s| - 1], s[|s| - 1];
    var d := last as int - 'A' as int;
    assert LetterOf(d) == last;
    if init != "" {
      DecodedLetters(init);
      var v := DecodeLetters(s);
      assert v == 26 * (DecodeLetters(init) + 1) + d;
      assert v / 26 - 1 == DecodeLetters(init) && v % 26 == d;
    } else {
      assert LetterValue(init) == 0;
    }
    assert s == init + [last];
  }

  predicate IsDigit(c: char) {
    '0' <= c <= '9'
  }

  predicate AllDigits(s: string) {
    forall i :: 0 <= i < |s| ==> IsDigit(s[i])
  }

  // strconv.Itoa for a non-negative number.
  function Itoa(n: nat): (s: string)
    ensures s != "" && AllDigits(s)
  {
    if n < 10 then ['0' + n as char] else Itoa(n / 10) + ['0' + (n % 10) as char]
  }

  function DecodeDecimal(s: string): nat
    requires AllDigits(s)
  {
    if s == "" then 0 else 10 * DecodeDecimal(s[..|s| - 1]) + (s[|s| - 1] as int - '0' as int)
  }

  lemma {:induction false} ItoaDecodes(n: nat)
    ensures DecodeDecimal(Itoa(n)) == n
  {
    var s := Itoa(n);
    if n < 10 {
      assert s[..|s| - 1] == "";
    } else {
      assert s[..|s| - 1] == Itoa(n / 10);
      ItoaDecodes(n / 10);
    }
  }

  function IndexToLabel(i: nat, labeling: Labeling): (s: string)
    ensures s != ""
  {
    match labeling
    case Number => Itoa(i + 1)
    case Letter => Letters(i)
  }

  predicate LabelShape(s: string, labeling: Labeling) {
    s != "" && match labeling
      case Number => AllDigits(s) && DecodeDecimal(s) >= 1
      case Letter => AllLetters(s)
  }

  function DecodeLabel(s: string, labeling: Labeling): nat
    requires LabelShape(s, labeling)
  {
    match labeling
    case Number => DecodeDecimal(s) - 1
    case Letter => DecodeLetters(s)
  }

  lemma {:induction false} LabelDecodes(i: nat, labeling: Labeling)
    ensures LabelShape(IndexToLabel(i, labeling), labeling)
    ensures DecodeLabel(IndexToLabel(i, labeling), labeling) == i
  {
    ItoaDecodes(i + 1);
    LettersDecode(i);
  }

  /* ---- read time ---- */

  datatype AnswerRef = AnswerRef(id: string, value: string)

  function FirstIndex(choices: seq<string>, value: string): (i: nat)
    requires value in choices
    ensures i < |choices| && choices[i] == value
    ensures forall k :: 0 <= k < i ==> choices[k] != value
  {
    if choices[0] == value then 0 else 1 + FirstIndex(choices[1..], value)
  }

  function IdOfValue(choices: seq<string>, value: string, labeling: Labeling): string {
    if value in choices then IndexToLabel(FirstIndex(choices, value), labeling) else ""
  }

  method IdForValue(choices: seq<string>, value: string, labeling: Labeling) returns (id: string)
    ensures id == IdOfValue(choices, value, labeling)
  {
    var idx := -1;
    for i := 0 to |choices|
      invariant idx == -1 && forall k :: 0 <= k < i ==> choices[k] != value
    {
      if choices[i] == value {
        idx := i;
        break;
      }
    }
    if idx < 0 {
      return "";
    }
    match labeling {
      case Number => id := Itoa(idx + 1);
      case Letter => id := IndexToLetter(idx);
    }
  }

  method DeriveAnswerRefs(choices: seq<string>, answers: seq<string>, labeling: Labeling)
    returns (refs: seq<AnswerRef>)
    ensures |refs| == |answers|
    ensures forall k :: 0 <= k < |answers| ==>
      refs[k] == AnswerRef(IdOfValue(choices, answers[k], labeling), answers[k])
  {
    refs := [];
    for i := 0 to |answers|
      invariant |refs| == i
      invariant forall k :: 0 <= k < i ==>
        refs[k] == AnswerRef(IdOfValue(choices, answers[k], labeling), answers[k])
    {
      var id := IdForValue(choices, answers[i], labeling);
      refs := refs + [AnswerRef(id, answers[i])];
    }
  }

  // Every answer of an accepted multiple-choice draft shows an id, and the id decodes to the least
  // index at which the answer stands.
  lemma {:induction false} AcceptedAnswersDecode(
    text: string, choices: seq<string>, answers: seq<string>, labeling: Labeling, a: string)
    requires WellFormed(text, choices, answers, MultipleChoice) && a in answers
    ensures var id := IdOfValue(choices, a, labeling);
      && LabelShape(id, labeling)
      && DecodeLabel(id, labeling) < |choices|
      && choices[DecodeLabel(id, labeling)] == a
      && forall k :: 0 <= k < DecodeLabel(id, labeling) ==> choices[k] != a
  {
    LabelDecodes(FirstIndex(choices, a), labeling);
  }

  /* ---- extraction time ---- */

  datatype Answer = Answer(id: string, text: string)

  function DetectChoiceLabeling(answers: seq<Answer>): Labeling {
    if answers != [] && answers[0].id != "" && IsDigit(answers[0].id[0]) then Number else Letter
  }

  // string(rune(n)): the conversion keeps 32 bits, and an invalid code point prints as U+FFFD.
  function RuneOf(n: nat): char {
    var r := n % 0x1_0000_0000;
    if r < 0xD800 || 0xE000 <= r < 0x11_0000 then r as char else '\U{FFFD}'
  }

  function LabelFor(i: nat, labeling: Labeling): (s: string)
    ensures s != ""
  {
    match labeling
    case Number => Itoa(i + 1)
    case Letter => [RuneOf('A' as int + i)]
  }

  function WithIds(choices: seq<string>, labeling: Labeling): (r: seq<Answer>)
    ensures |r| == |choices|
    ensures forall i :: 0 <= i < |choices| ==> r[i] == Answer(LabelFor(i, labeling), choices[i])
  {
    seq(|choices|, i requires 0 <= i < |choices| => Answer(LabelFor(i, labeling), choices[i]))
  }

  method AssignChoiceIds(choices: seq<string>, labeling: Labeling) returns (out: array<Answer>)
    ensures out[..] == WithIds(choices, labeling)
  {
    out := new Answer[|choices|](_ => Answer("", ""));
    for i := 0 to |choices|
      invariant out.Length == |choices|
      invariant forall k :: 0 <= k < i ==> out[k] == Answer(LabelFor(k, labeling), choices[k])
    {
      out[i] := Answer(LabelFor(i, labeling), choices[i]);
    }
  }

  function AnswerTexts(answers: seq<Answer>): (r: seq<string>)
    ensures |r| == |answers| && forall i :: 0 <= i < |r| ==> r[i] == answers[i].text
  {
    seq(|answers|, i requires 0 <= i < |answers| => answers[i].text)
  }

  function AnswerIds(answers: seq<Answer>): (r: seq<string>)
    ensures |r| == |answers| && forall i :: 0 <= i < |r| ==> r[i] == answers[i].id
  {
    seq(|answers|, i requires 0 <= i < |answers| => answers[i].id)
  }

  // The first non-empty id decides; `digit` is unicode.IsDigit.
  function InferChoiceLabeling(digit: char -> bool, ids: seq<string>): Labeling {
    if ids == [] then Letter
    else if ids[0] == "" then InferChoiceLabeling(digit, ids[1..])
    else if digit(ids[0][0]) then Number
    else Letter
  }

  // What extraction hands on for a question, and what the pipeline stores of it.
  function Extracted(choices: seq<string>, answers: seq<Answer>): seq<Answer> {
    WithIds(choices, DetectChoiceLabeling(answers))
  }

  function StoredLabeling(digit: char -> bool, extracted: seq<Answer>): Labeling {
    InferChoiceLabeling(digit, AnswerIds(extracted))
  }

  lemma {:induction false} LabelingSurvives(digit: char -> bool, choices: seq<string>, answers: seq<Answer>)
    requires digit('1') && !digit('A') && choices != []
    ensures StoredLabeling(digit, Extracted(choices, answers)) == DetectChoiceLabeling(answers)
    ensures AnswerTexts(Extracted(choices, answers)) == choices
  {
    var e := Extracted(choices, answers);
    assert AnswerIds(e)[0] == LabelFor(0, DetectChoiceLabeling(answers));
    assert Itoa(1) == "1";
    assert RuneOf(65) == 'A';
  }

  lemma {:induction false} LetterLabelsAgreeIff(i: nat, f: nat)
    ensures LabelFor(i, Letter) == IndexToLabel(f, Letter) <==>
      f < 26 && ('A' as int + i) % 0x1_0000_0000 == 'A' as int + f
  {
    var r := ('A' as int + i) % 0x1_0000_0000;
    if f < 26 {
      assert Letters(f) == [LetterOf(f)];
      assert LetterOf(f) as int == 'A' as int + f;
    }
  }

  lemma {:induction false} NumberLabelsAgreeIff(i: nat, f: nat)
    ensures LabelFor(i, Number) == IndexToLabel(f, Number) <==> i == f
  {
    ItoaDecodes(i + 1);
    ItoaDecodes(f + 1);
  }

  // The text did not occur earlier and, under letters, the choice is one of the first 26 (up to the
  // 32 bits of a rune).
  predicate SameLabel(choices: seq<string>, i: nat, labeling: Labeling)
    requires i < |choices|
  {
    var first := FirstIndex(choices, choices[i]);
    match labeling
    case Number => first == i
    case Letter => first < 26 && ('A' as int + i) % 0x1_0000_0000 == 'A' as int + first
  }

  // Exactly then the id a choice got at extraction is the id shown for its text at read time.
  lemma {:induction false} ExtractionLabelsAgree(
    digit: char -> bool, choices: seq<string>, answers: seq<Answer>, i: nat)
    requires digit('1') && !digit('A')
    requires i < |choices|
    ensures var e := Extracted(choices, answers);
      var shown := IdOfValue(AnswerTexts(e), choices[i], StoredLabeling(digit, e));
      e[i].id == shown <==> SameLabel(choices, i, DetectChoiceLabeling(answers))
  {
    LabelingSurvives(digit, choices, answers);
    var first := FirstIndex(choices, choices[i]);
    LetterLabelsAgreeIff(i, first);
    NumberLabelsAgreeIff(i, first);
  }

  lemma {:induction false} DistinctChoicesAgree(choices: seq<string>, i: nat, labeling: Labeling)
    requires i < |choices| < 0xFFFF_FFFF - 'A' as int
    requires forall k, l :: 0 <= k < l < |choices| ==> choices[k] != choices[l]
    ensures SameLabel(choices, i, labeling) <==> labeling.Number? || i < 26
  {
    assert FirstIndex(choices, choices[i]) == i;
  }
}
