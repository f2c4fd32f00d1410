/** One row of an import file: its shape, its multi-value cells, and the question built from it. */
module ImportRows {
  import opened Wrappers
  import opened Questions
  import opened Normalize
  import opened Drafts

  const COLUMNS := 5
  const MAX_FILE_TAGS := 20
  const IMPORT_TAG := "import"

  predicate Blank(u: Unicode, cell: string) {
    TrimSpace(u, cell) == ""
  }

  // The number of cells up to the last one that is not blank.
  function UsedCells(u: Unicode, cells: seq<string>): (n: nat)
    ensures n <= |cells|
    ensures n > 0 ==> !Blank(u, cells[n - 1])
    ensures forall i :: n <= i < |cells| ==> Blank(u, cells[i])
  {
    if cells == [] || !Blank(u, cells[|cells| - 1]) then |cells| else UsedCells(u, cells[..|cells| - 1])
  }

  // Exactly five columns, short rows padded with empty cells; longer rows are refused.
  function NormalRow(u: Unicode, cells: seq<string>): (r: Result<seq<string>, string>)
    ensures r.Ok? <==> UsedCells(u, cells) <= COLUMNS
    ensures r.Ok? ==> |r.value| == 5
    ensures r.Ok? ==>
      var n := UsedCells(u, cells);
      r.value[..n] == cells[..n] && forall i :: n <= i < 5 ==> r.value[i] == ""
  {
    var n := UsedCells(u, cells);
    if n > COLUMNS then Err("too many columns (max 5)")
    else Ok(cells[..n] + seq(COLUMNS - n, _ => ""))
  }

  method NormalizeRow(u: Unicode, cells: seq<string>, out: array<string>) returns (ok: bool)
    requires out.Length == COLUMNS && forall i :: 0 <= i < COLUMNS ==> out[i] == ""
    modifies out
    ensures ok <==> NormalRow(u, cells).Ok?
    ensures ok ==> out[..] == NormalRow(u, cells).value
    ensures !ok ==> out[..] == old(out[..])
  {
    var trimmed := cells;
    while |trimmed| > 0 && TrimSpace(u, trimmed[|trimmed| - 1]) == ""
      invariant trimmed <= cells
      invariant UsedCells(u, trimmed) == UsedCells(u, cells)
    {
      trimmed := trimmed[..|trimmed| - 1];
    }
    assert |trimmed| == UsedCells(u, cells);
    if |trimmed| > COLUMNS {
      return false;
    }
    for i := 0 to |trimmed|
      invariant forall k :: 0 <= k < i ==> out[k] == trimmed[k]
      invariant forall k :: i <= k < COLUMNS ==> out[k] == ""
    {
      out[i] := trimmed[i];
    }
    ok := true;
  }

  /* ---- multi-value cells ---- */

  function Split(s: string, c: char): (parts: seq<string>)
    ensures parts != []
  {
    if s == "" then [""]
    else if s[0] == c then [""] + Split(s[1..], c)
    else
      var rest := Split(s[1..], c);
      [[s[0]] + rest[0]] + rest[1..]
  }

  function TrimmedItems(u: Unicode, parts: seq<string>): seq<string> {
    if parts == [] then []
    else
      var init := TrimmedItems(u, parts[..|parts| - 1]);
      var t := TrimSpace(u, parts[|parts| - 1]);
      if t != "" then init + [t] else init
  }

  function Items(u: Unicode, cell: string): seq<string> {
    TrimmedItems(u, Split(cell, ';'))
  }

  method SplitMulti(u: Unicode, cell: string) returns (out: seq<string>)
    ensures out == Items(u, cell)
  {
    var parts := Split(cell, ';');
    out := [];
    for i := 0 to |parts|
      invariant out == TrimmedItems(u, parts[..i])
    {
      assert parts[..i + 1][..i] == parts[..i];
      var t := TrimSpace(u, parts[i]);
      if t != "" {
        out := out + [t];
      }
    }
    assert parts[..|parts|] == parts;
  }

  // An item a cell can hold: not empty, without the separator, without space at either end.
  predicate Clean(u: Unicode, item: string) {
    && item != "" && ';' !in item
    && !u.space(item[0]) && !u.space(item[|item| - 1])
  }

  lemma {:induction false} TrimLeftShape(u: Unicode, s: string)
    ensures var t := TrimLeft(u, s);
      |t| <= |s| && t == s[|s| - |t|..] && (t != "" ==> !u.space(t[0]))
  {
    if s != "" && u.space(s[0]) {
      TrimLeftShape(u, s[1..]);
    }
  }

  lemma {:induction false} TrimRightShape(u: Unicode, s: string)
    ensures var t := TrimRight(u, s);
      t <= s && (t != "" ==> !u.space(t[|t| - 1]))
    decreases |s|
  {
    if s != "" && u.space(s[|s| - 1]) {
      TrimRightShape(u, s[..|s| - 1]);
    }
  }

  lemma {:induction false} TrimLeftExact(u: Unicode, s: string) returns (i: nat)
    ensures i <= |s| && TrimLeft(u, s) == s[i..] && forall k :: 0 <= k < i ==> u.space(s[k])
  {
    i := 0;
    if s != "" && u.space(s[0]) {
      var m := TrimLeftExact(u, s[1..]);
      assert forall k :: 1 <= k < m + 1 ==> s[k] == s[1..][k - 1];
      i := m + 1;
    }
  }

  lemma {:induction false} TrimRightExact(u: Unicode, s: string) returns (n: nat)
    ensures n <= |s| && TrimRight(u, s) == s[..n] && forall k :: n <= k < |s| ==> u.space(s[k])
    decreases |s|
  {
    n := |s|;
    if s != "" && u.space(s[|s| - 1]) {
      n := TrimRightExact(u, s[..|s| - 1]);
      assert forall k :: n <= k < |s| - 1 ==> s[k] == s[..|s| - 1][k];
    }
  }

  // Trimming takes away the white space at both ends and nothing else.
  lemma {:induction false} TrimExact(u: Unicode, s: string) returns (i: nat, j: nat)
    ensures i <= j <= |s| && TrimSpace(u, s) == s[i..j]
    ensures forall k :: 0 <= k < i || j <= k < |s| ==> u.space(s[k])
    ensures i < j ==> !u.space(s[i]) && !u.space(s[j - 1])
  {
    i := TrimLeftExact(u, s);
    var n := TrimRightExact(u, s[i..]);
    j := i + n;
    TrimLeftShape(u, s);
    TrimRightShape(u, s[i..]);
    assert s[i..][..n] == s[i..j];
    forall k | j <= k < |s| ensures u.space(s[k]) {
      assert s[k] == s[i..][k - i];
    }
  }

  lemma {:induction false} TrimClean(u: Unicode, s: string)
    requires ';' !in s
    ensures TrimSpace(u, s) != "" ==> Clean(u, TrimSpace(u, s))
  {
    TrimLeftShape(u, s);
    TrimRightShape(u, TrimLeft(u, s));
    var t := TrimSpace(u, s);
    if t != "" {
      assert t[0] == TrimLeft(u, s)[0];
      assert forall i :: 0 <= i < |t| ==> t[i] == TrimLeft(u, s)[i];
    }
  }

  lemma {:induction false} SplitParts(s: string, c: char)
    ensures forall k :: 0 <= k < |Split(s, c)| ==> c !in Split(s, c)[k]
  {
    if s != "" {
      SplitParts(s[1..], c);
    }
  }

  lemma {:induction false} TrimmedItemsClean(u: Unicode, parts: seq<string>)
    requires forall k :: 0 <= k < |parts| ==> ';' !in parts[k]
    ensures forall k :: 0 <= k < |TrimmedItems(u, parts)| ==> Clean(u, TrimmedItems(u, parts)[k])
  {
    if parts != [] {
      TrimmedItemsClean(u, parts[..|parts| - 1]);
      TrimClean(u, parts[|parts| - 1]);
    }
  }

  lemma {:induction false} SplitOne(s: string, c: char)
    requires c !in s
    ensures Split(s, c) == [s]
  {
    if s != "" {
      SplitOne(s[1..], c);
      assert s[0] in s;
      assert s == [s[0]] + s[1..];
    }
  }

  lemma {:induction false} SplitFirst(a: string, c: char, rest: string)
    requires c !in a
    ensures Split(a + [c] + rest, c) == [a] + Split(rest, c)
  {
    var s := a + [c] + rest;
    if a == "" {
      assert s[1..] == rest;
    } else {
      assert s[1..] == a[1..] + [c] + rest;
      SplitFirst(a[1..], c, rest);
      assert a[0] in a && s[0] == a[0];
      assert a == [a[0]] + a[1..];
    }
  }

  lemma {:induction false} SplitOfJoin(items: seq<string>)
    requires items != [] && forall k :: 0 <= k < |items| ==> ';' !in items[k]
    ensures Split(Join(items, ";"), ';') == items
  {
    if |items| == 1 {
      SplitOne(items[0], ';');
    } else {
      SplitFirst(items[0], ';', Join(items[1..], ";"));
      SplitOfJoin(items[1..]);
      assert Join(items, ";") == items[0] + [';'] + Join(items[1..], ";");
    }
  }

  lemma {:induction false} CleanItemsStay(u: Unicode, items: seq<string>)
    requires forall k :: 0 <= k < |items| ==> Clean(u, items[k])
    ensures TrimmedItems(u, items) == items
  {
    if items != [] {
      CleanItemsStay(u, items[..|items| - 1]);
    }
  }

  lemma {:induction false} TrimmedConcat(u: Unicode, a: seq<string>, b: seq<string>)
    ensures TrimmedItems(u, a + b) == TrimmedItems(u, a) + TrimmedItems(u, b)
  {
    if b == [] {
      assert a + b == a;
    } else {
      assert (a + b)[..|a + b| - 1] == a + b[..|b| - 1];
      TrimmedConcat(u, a, b[..|b| - 1]);
    }
  }

  // What any cell reads as: the trimmed piece before the first separator, unless it is empty, and then
  // what the rest reads as.
  lemma {:induction false} ItemsOfOne(u: Unicode, cell: string)
    requires ';' !in cell
    ensures Items(u, cell) == if TrimSpace(u, cell) == "" then [] else [TrimSpace(u, cell)]
  {
    SplitOne(cell, ';');
    assert [cell][..0] == [] && TrimmedItems(u, []) == [];
    assert TrimmedItems(u, [cell]) == [] + if TrimSpace(u, cell) == "" then [] else [TrimSpace(u, cell)];
  }

  lemma {:induction false} ItemsOfMore(u: Unicode, a: string, rest: string)
    requires ';' !in a
    ensures Items(u, a + [';'] + rest) == Items(u, a) + Items(u, rest)
  {
    SplitOne(a, ';');
    SplitFirst(a, ';', rest);
    TrimmedConcat(u, [a], Split(rest, ';'));
  }

  // A cell written from clean items reads back as those items, and whatever a cell reads as is a
  // list of clean items.
  lemma {:induction false} CellRoundTrip(u: Unicode, items: seq<string>)
    requires forall k :: 0 <= k < |items| ==> Clean(u, items[k])
    ensures Items(u, Join(items, ";")) == items
  {
    if items == [] {
      assert Split("", ';') == [""];
      assert Join(items, ";") == "";
      assert [""][..0] == [];
      assert TrimmedItems(u, []) == [];
      assert TrimSpace(u, "") == "";
      assert TrimmedItems(u, [""]) == [];
    } else {
      SplitOfJoin(items);
      CleanItemsStay(u, items);
    }
  }

  lemma {:induction false} CellsReadClean(u: Unicode, cell: string)
    ensures forall k :: 0 <= k < |Items(u, cell)| ==> Clean(u, Items(u, cell)[k])
    ensures Items(u, Join(Items(u, cell), ";")) == Items(u, cell)
  {
    SplitParts(cell, ';');
    TrimmedItemsClean(u, Split(cell, ';'));
    CellRoundTrip(u, Items(u, cell));
  }

  /* ---- the question built from a row ---- */

  datatype Draft = Draft(row: Row, tags: seq<string>)

  // Free response exactly without choices.
  function TypeOf(choices: seq<string>): QuestionType {
    if choices == [] then FreeResponse else MultipleChoice
  }

  // Choices, answers and tags are the items of the second, third and fifth column.
  function BuildQuestion(e: Env, cols: seq<string>): (r: Result<Draft, string>)
    requires |cols| == COLUMNS
    ensures r.Ok? <==>
      var choices, answers := Items(e.unicode, cols[1]), Items(e.unicode, cols[2]);
      WellFormed(cols[0], choices, answers, TypeOf(choices)) && |Items(e.unicode, cols[4])| <= 20
    ensures r.Ok? ==>
      var q := r.value.row;
      && q.text == cols[0] && q.choices == Items(e.unicode, cols[1]) && q.answers == Items(e.unicode, cols[2])
      && q.explanation == cols[3] && r.value.tags == Items(e.unicode, cols[4]) + ["import"]
      && q.qtype == TypeOf(q.choices) && q.number == 0 && q.labeling == Letter && q.confidence == 0.99
      && WellFormed(q.text, q.choices, q.answers, q.qtype)
      && q.norm == NormalizeQuestion(e.unicode, q.text) && q.hash == e.digest(q.norm)
      && RowOk(q) && q.status == Verified && q.verifiedAt == Some(e.now) && q.verifiedBy == Some(e.user)
      && q.embedding.None? && q.tags == TagSet(r.value.tags)
      && |r.value.tags| <= 21
  {
    var u := e.unicode;
    var text, choices, answers, tags := cols[0], Items(u, cols[1]), Items(u, cols[2]), Items(u, cols[4]);
    var typ := InferQuestionType(choices);
    match ValidateDraft(text, choices, answers, typ)
    case Err(m) => Err(m)
    case Ok(_) =>
      if |tags| > MAX_FILE_TAGS then Err("too many tags (max 20)")
      else
        var norm := NormalizeQuestion(u, text);
        Ok(Draft(
          Row(0, text, norm, e.digest(norm), choices, answers, Letter, typ, 0.99, cols[3], None, Verified,
              Some(e.now), Some(e.user), TagSet(tags + [IMPORT_TAG])),
          tags + [IMPORT_TAG]))
  }

  function ParseRow(e: Env, cells: seq<string>): Result<Draft, string> {
    match NormalRow(e.unicode, cells)
    case Err(m) => Err(m)
    case Ok(cols) => BuildQuestion(e, cols)
  }

  /* ---- writing a question into a file and reading it back ---- */

  datatype Entry = Entry(
    text: string, choices: seq<string>, answers: seq<string>, explanation: string, tags: seq<string>)

  predicate AllClean(u: Unicode, items: seq<string>) {
    forall k :: 0 <= k < |items| ==> Clean(u, items[k])
  }

  // A question a row can hold.
  predicate Writable(u: Unicode, x: Entry) {
    && AllClean(u, x.choices) && AllClean(u, x.answers) && AllClean(u, x.tags) && |x.tags| <= 20
    && x.text != "" && x.answers != []
    && (x.choices == [] || (|x.choices| >= 2 && forall a :: a in x.answers ==> a in x.choices))
  }

  function CellsOf(x: Entry): seq<string> {
    [x.text, Join(x.choices, ";"), Join(x.answers, ";"), x.explanation, Join(x.tags, ";")]
  }

  // What reading the row gives back: everything as it was written, but that an explanation of white space
  // only is lost when no tags follow it.
  predicate ReadsAs(e: Env, x: Entry, d: Draft) {
    var q := d.row;
    && q.text == x.text && q.choices == x.choices && q.answers == x.answers
    && q.explanation == (if x.tags == [] && Blank(e.unicode, x.explanation) then "" else x.explanation)
    && d.tags == x.tags + ["import"]
    && (q.qtype == FreeResponse <==> x.choices == [])
    && q.number == 0 && q.labeling == Letter && q.confidence == 0.99
    && q.norm == NormalizeQuestion(e.unicode, x.text) && q.hash == e.digest(q.norm)
    && q.status == Verified && q.verifiedAt == Some(e.now) && q.verifiedBy == Some(e.user)
  }

  lemma {:induction false} TrimNothing(u: Unicode, s: string)
    ensures TrimSpace(u, s) == "" <==> forall k :: 0 <= k < |s| ==> u.space(s[k])
  {
    var i, j := TrimExact(u, s);
  }

  lemma {:induction false} JoinedNotBlank(u: Unicode, items: seq<string>)
    requires AllClean(u, items)
    ensures Blank(u, Join(items, ";")) <==> items == []
  {
    TrimNothing(u, Join(items, ";"));
    if items != [] {
      assert Clean(u, items[0]);
      assert Join(items, ";")[0] == items[0][0];
    }
  }

  lemma {:induction false} RowReadsBack(e: Env, x: Entry)
    requires Writable(e.unicode, x)
    ensures ParseRow(e, CellsOf(x)).Ok? && ReadsAs(e, x, ParseRow(e, CellsOf(x)).value)
  {
    var u, cells := e.unicode, CellsOf(x);
    CellRoundTrip(u, x.choices);
    CellRoundTrip(u, x.answers);
    CellRoundTrip(u, x.tags);
    JoinedNotBlank(u, x.answers);
    JoinedNotBlank(u, x.tags);
    CellRoundTrip(u, []);
    var n := UsedCells(u, cells);
    assert Items(u, "") == [] by {
      assert Join([], ";") == "";
    }
    assert n >= 3 by {
      assert !Blank(u, cells[2]);
    }
    var cols := NormalRow(u, cells).value;
    assert forall i :: 0 <= i < n ==> cols[i] == cols[..n][i] == cells[i];
    assert n < 5 ==> Blank(u, cells[4]);
    assert n < 4 ==> Blank(u, cells[3]);
    assert Items(u, cols[4]) == x.tags by {
      assert n == 5 || x.tags == [];
    }
    assert x.tags != [] ==> n == 5;
    assert x.tags == [] ==> (n == 4 <==> !Blank(u, x.explanation)) && n < 5;
  }
}
