/** Normalization of question text for deduplication. Lower-casing and the whitespace test are
    per character and come from the Unicode tables. */
module Normalize {

  datatype Unicode = Unicode(lower: char -> char, space: char -> bool)
  {
    ghost predicate Valid() {
      && space(' ') && lower(' ') == ' '
      && (forall c :: lower(lower(c)) == lower(c))
      && (forall c :: space(lower(c)) <==> space(c))
    }
  }

  function ToLower(u: Unicode, s: string): string {
    if s == [] then [] else [u.lower(s[0])] + ToLower(u, s[1..])
  }

  function TrimLeft(u: Unicode, s: string): string {
    if s != [] && u.space(s[0]) then TrimLeft(u, s[1..]) else s
  }

  function TrimRight(u: Unicode, s: string): string {
    if s != [] && u.space(s[|s| - 1]) then TrimRight(u, s[..|s| - 1]) else s
  }

  function TrimSpace(u: Unicode, s: string): string {
    TrimRight(u, TrimLeft(u, s))
  }

  function WordLength(u: Unicode, s: string): (n: nat)
    ensures n <= |s|
    ensures forall i :: 0 <= i < n ==> !u.space(s[i])
    ensures n < |s| ==> u.space(s[n])
  {
    if s == [] || u.space(s[0]) then 0 else 1 + WordLength(u, s[1..])
  }

  // strings.Fields: the maximal runs of non-space characters.
  function Fields(u: Unicode, s: string): seq<string> {
    if s == [] then []
    else if u.space(s[0]) then Fields(u, s[1..])
    else
      var n := WordLength(u, s);
      [s[..n]] + Fields(u, s[n..])
  }

  function Join(words: seq<string>, sep: string): string {
    if words == [] then ""
    else if |words| == 1 then words[0]
    else words[0] + sep + Join(words[1..], sep)
  }

  function NormalizeQuestion(u: Unicode, s: string): string {
    Join(Fields(u, ToLower(u, TrimSpace(u, s))), " ")
  }

  // The lower-cased, whitespace-separated words of a text.
  function Words(u: Unicode, s: string): seq<string> {
    Fields(u, ToLower(u, s))
  }

  predicate IsWord(u: Unicode, w: string) {
    w != "" && forall i :: 0 <= i < |w| ==> !u.space(w[i])
  }

  predicate AreWords(u: Unicode, ws: seq<string>) {
    forall i :: 0 <= i < |ws| ==> IsWord(u, ws[i])
  }

  lemma {:induction false} FieldsAreWords(u: Unicode, s: string)
    ensures AreWords(u, Fields(u, s))
    decreases |s|
  {
    if s != [] {
      if u.space(s[0]) {
        FieldsAreWords(u, s[1..]);
      } else {
        FieldsAreWords(u, s[WordLength(u, s)..]);
      }
    }
  }

  lemma {:induction false} WordLengthAppend(u: Unicode, w: string, rest: string)
    requires forall i :: 0 <= i < |w| ==> !u.space(w[i])
    requires rest == [] || u.space(rest[0])
    ensures WordLength(u, w + rest) == |w|
  {
    if w == [] {
      assert w + rest == rest;
    } else {
      assert (w + rest)[1..] == w[1..] + rest;
      WordLengthAppend(u, w[1..], rest);
    }
  }

  lemma {:induction false} FieldsOfWord(u: Unicode, w: string, rest: string)
    requires IsWord(u, w) && (rest == [] || u.space(rest[0]))
    ensures Fields(u, w + rest) == [w] + Fields(u, rest)
  {
    WordLengthAppend(u, w, rest);
    assert (w + rest)[0] == w[0];
    assert (w + rest)[..|w|] == w && (w + rest)[|w|..] == rest;
  }

  // Splitting undoes joining.
  lemma {:induction false} FieldsOfJoin(u: Unicode, ws: seq<string>)
    requires u.space(' ') && AreWords(u, ws)
    ensures Fields(u, Join(ws, " ")) == ws
  {
    if |ws| == 1 {
      FieldsOfWord(u, ws[0], "");
      assert ws[0] + "" == ws[0];
    } else if |ws| > 1 {
      var rest := " " + Join(ws[1..], " ");
      assert Join(ws, " ") == ws[0] + rest;
      FieldsOfWord(u, ws[0], rest);
      assert rest[1..] == Join(ws[1..], " ");
      FieldsOfJoin(u, ws[1..]);
    }
  }

  lemma {:induction false} FieldsDropLastSpace(u: Unicode, s: string, c: char)
    requires u.space(c)
    ensures Fields(u, s + [c]) == Fields(u, s)
    decreases |s|
  {
    if s == [] {
      assert s + [c] == [c] && [c][1..] == [];
    } else if u.space(s[0]) {
      assert (s + [c])[1..] == s[1..] + [c];
      FieldsDropLastSpace(u, s[1..], c);
    } else {
      var n := WordLength(u, s);
      var w, rest := s[..n], s[n..];
      assert s == w + rest && s + [c] == w + (rest + [c]);
      FieldsOfWord(u, w, rest);
      FieldsOfWord(u, w, rest + [c]);
      FieldsDropLastSpace(u, rest, c);
    }
  }

  lemma {:induction false} ToLowerConcat(u: Unicode, a: string, b: string)
    ensures ToLower(u, a + b) == ToLower(u, a) + ToLower(u, b)
  {
    if a == [] {
      assert a + b == b;
    } else {
      assert (a + b)[1..] == a[1..] + b;
      ToLowerConcat(u, a[1..], b);
    }
  }

  lemma {:induction false} WordsTrimLeft(u: Unicode, s: string)
    requires u.Valid()
    ensures Words(u, TrimLeft(u, s)) == Words(u, s)
  {
    if s != [] && u.space(s[0]) {
      WordsTrimLeft(u, s[1..]);
      assert ToLower(u, s)[1..] == ToLower(u, s[1..]);
    }
  }

  lemma {:induction false} WordsTrimRight(u: Unicode, s: string)
    requires u.Valid()
    ensures Words(u, TrimRight(u, s)) == Words(u, s)
    decreases |s|
  {
    if s != [] && u.space(s[|s| - 1]) {
      var body, last := s[..|s| - 1], s[|s| - 1];
      WordsTrimRight(u, body);
      assert s == body + [last];
      ToLowerConcat(u, body, [last]);
      assert ToLower(u, [last]) == [u.lower(last)];
      FieldsDropLastSpace(u, ToLower(u, body), u.lower(last));
    }
  }

  // Trimming first changes nothing: the normal form is the words joined by single spaces.
  lemma {:induction false} NormalForm(u: Unicode, s: string)
    requires u.Valid()
    ensures NormalizeQuestion(u, s) == Join(Words(u, s), " ")
    ensures Fields(u, NormalizeQuestion(u, s)) == Words(u, s)
  {
    WordsTrimLeft(u, s);
    WordsTrimRight(u, TrimLeft(u, s));
    FieldsAreWords(u, ToLower(u, s));
    FieldsOfJoin(u, Words(u, s));
  }

  predicate IsLower(u: Unicode, s: string) {
    forall i :: 0 <= i < |s| ==> u.lower(s[i]) == s[i]
  }

  lemma {:induction false} ToLowerIsLower(u: Unicode, s: string)
    requires u.Valid()
    ensures IsLower(u, ToLower(u, s))
  {
    if s != [] {
      ToLowerIsLower(u, s[1..]);
    }
  }

  lemma {:induction false} ToLowerFixes(u: Unicode, s: string)
    requires IsLower(u, s)
    ensures ToLower(u, s) == s
  {
    if s != [] {
      ToLowerFixes(u, s[1..]);
    }
  }

  lemma {:induction false} FieldsStayLower(u: Unicode, s: string)
    requires IsLower(u, s)
    ensures forall i :: 0 <= i < |Fields(u, s)| ==> IsLower(u, Fields(u, s)[i])
    decreases |s|
  {
    if s != [] {
      if u.space(s[0]) {
        FieldsStayLower(u, s[1..]);
      } else {
        FieldsStayLower(u, s[WordLength(u, s)..]);
      }
    }
  }

  lemma {:induction false} JoinStaysLower(u: Unicode, ws: seq<string>)
    requires u.lower(' ') == ' ' && forall i :: 0 <= i < |ws| ==> IsLower(u, ws[i])
    ensures IsLower(u, Join(ws, " "))
  {
    if |ws| > 1 {
      JoinStaysLower(u, ws[1..]);
    }
  }

  lemma {:induction false} ToLowerIs(u: Unicode, s: string)
    ensures |ToLower(u, s)| == |s| && forall i :: 0 <= i < |s| ==> ToLower(u, s)[i] == u.lower(s[i])
  {
    if s != [] {
      ToLowerIs(u, s[1..]);
    }
  }

  // Two texts share a normal form, and so a hash, exactly when their word sequences agree.
  lemma {:induction false} SameNormalFormIff(u: Unicode, a: string, b: string)
    requires u.Valid()
    ensures NormalizeQuestion(u, a) == NormalizeQuestion(u, b) <==> Words(u, a) == Words(u, b)
  {
    NormalForm(u, a);
    NormalForm(u, b);
  }

  // Case does not matter.
  lemma {:induction false} CaseIgnored(u: Unicode, a: string, b: string)
    requires u.Valid() && |a| == |b| && forall i :: 0 <= i < |a| ==> u.lower(a[i]) == u.lower(b[i])
    ensures NormalizeQuestion(u, a) == NormalizeQuestion(u, b)
  {
    ToLowerIs(u, a);
    ToLowerIs(u, b);
    assert ToLower(u, a) == ToLower(u, b);
    SameNormalFormIff(u, a, b);
  }

  lemma {:induction false} GapIgnored(u: Unicode, gap: string, s: string)
    requires u.Valid() && forall i :: 0 <= i < |gap| ==> u.space(gap[i])
    ensures Words(u, gap + s) == Words(u, s)
  {
    if gap == "" {
      assert gap + s == s;
    } else {
      assert (gap + s)[1..] == gap[1..] + s && (gap + s)[0] == gap[0];
      GapIgnored(u, gap[1..], s);
      assert ToLower(u, gap + s)[1..] == ToLower(u, gap[1..] + s);
    }
  }

  // White space, in front, behind or repeated, does not matter; that between words does.
  lemma {:induction false} SpaceIgnored(u: Unicode, w: string, gap: string, s: string)
    requires u.Valid() && IsWord(u, w) && gap != "" && forall i :: 0 <= i < |gap| ==> u.space(gap[i])
    ensures NormalizeQuestion(u, gap + s) == NormalizeQuestion(u, s)
    ensures Words(u, w + gap + s) == [ToLower(u, w)] + Words(u, s)
  {
    GapIgnored(u, gap, s);
    SameNormalFormIff(u, gap + s, s);
    ToLowerIs(u, w);
    ToLowerIs(u, gap + s);
    assert w + gap + s == w + (gap + s);
    ToLowerConcat(u, w, gap + s);
    FieldsOfWord(u, ToLower(u, w), ToLower(u, gap + s));
  }

  lemma {:induction false} NormalizeIdempotent(u: Unicode, s: string)
    requires u.Valid()
    ensures NormalizeQuestion(u, NormalizeQuestion(u, s)) == NormalizeQuestion(u, s)
  {
    var n := NormalizeQuestion(u, s);
    NormalForm(u, s);
    NormalForm(u, n);
    ToLowerIsLower(u, s);
    FieldsStayLower(u, ToLower(u, s));
    JoinStaysLower(u, Words(u, s));
    ToLowerFixes(u, n);
  }
}
