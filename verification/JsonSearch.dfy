/** jsonb arrays of strings as text, and for which terms searching the text is searching the strings. */
module JsonSearch {
  import opened Search

  /* ---- jsonb arrays of strings as text ---- */

  function HexDigit(n: nat): char
    requires n < 16
  {
    if n < 10 then '0' + n as char else 'a' + (n - 10) as char
  }

  function ControlEscape(c: char): string
    requires c < ' '
  {
    if c == '\n' then "\\n" else if c == '\r' then "\\r" else if c == '\t' then "\\t"
    else if c as int == 8 then "\\b" else if c as int == 12 then "\\f"
    else "\\u00" + [HexDigit(c as int / 16), HexDigit(c as int % 16)]
  }

  function JsonChar(c: char): string {
    if c == '"' || c == '\\' then ['\\', c] else if c < ' ' then ControlEscape(c) else [c]
  }

  function JsonBody(s: string): string {
    if s == [] then [] else JsonChar(s[0]) + JsonBody(s[1..])
  }

  function JsonString(s: string): string {
    ['"'] + JsonBody(s) + ['"']
  }

  // The text after an array's first element.
  function JsonRest(xs: seq<string>): string {
    if xs == [] then "]" else ", " + JsonString(xs[0]) + JsonRest(xs[1..])
  }

  function JsonText(xs: seq<string>): string {
    if xs == [] then "[]" else "[" + JsonString(xs[0]) + JsonRest(xs[1..])
  }

  /* ---- occurrences and the notation ---- */

  predicate Structural(c: char) {
    c == '"' || c == '\\' || c == '[' || c == ']' || c == ',' || c == ' '
  }

  // Case folding leaves the characters of JSON's notation alone.
  ghost predicate FoldKeepsJson(fold: char -> char) {
    forall c :: (Structural(c) ==> fold(c) == c) && (Structural(fold(c)) ==> fold(c) == c)
  }

  // Text without control characters, which JSON writes with letters.
  predicate Printable(s: string) {
    forall k :: 0 <= k < |s| ==> s[k] >= ' '
  }

  predicate AllPrintable(xs: seq<string>) {
    forall k :: 0 <= k < |xs| ==> Printable(xs[k])
  }

  predicate AnyContains(fold: char -> char, xs: seq<string>, s: string) {
    exists k :: 0 <= k < |xs| && Contains(fold, xs[k], s)
  }

  // A piece of the notation between the strings.
  predicate Notation(s: string) {
    s == "" || s == "[" || s == "]" || s == "[]" || s == "," || s == " " || s == ", "
  }

  lemma {:induction false} OccursLeft(fold: char -> char, a: string, b: string, s: string, i: nat)
    requires i + |s| <= |a|
    ensures OccursFolded(fold, a + b, s, i) <==> OccursFolded(fold, a, s, i)
  {
    var t := a + b;
    assert forall k :: 0 <= k < |s| ==> (fold(t[i + k]) == fold(s[k]) <==> fold(a[i + k]) == fold(s[k]));
  }

  lemma {:induction false} OccursRight(fold: char -> char, a: string, b: string, s: string, i: nat)
    ensures OccursFolded(fold, a + b, s, |a| + i) <==> OccursFolded(fold, b, s, i)
  {
    var t, n := a + b, |a| + i;
    if i + |s| <= |b| {
      assert forall k :: 0 <= k < |s| ==> (fold(t[n + k]) == fold(s[k]) <==> fold(b[i + k]) == fold(s[k]));
    }
  }

  // Where either side has a character of the notation, an occurrence has the same one on the other.
  lemma {:induction false} NotationMatches(fold: char -> char, t: string, s: string, i: nat, k: nat)
    requires FoldKeepsJson(fold) && i + |s| <= |t| && k < |s|
    ensures OccursFolded(fold, t, s, i) && (Structural(t[i + k]) || Structural(s[k])) ==> s[k] == t[i + k]
  {
  }

  lemma {:induction false} NotAcross(fold: char -> char, t: string, s: string, i: nat, n: nat)
    requires FoldKeepsJson(fold) && OccursFolded(fold, t, s, i) && n < |t| && Structural(t[n])
    ensures i <= n < i + |s| ==> t[n] in s
  {
    if i <= n < i + |s| {
      NotationMatches(fold, t, s, i, n - i);
    }
  }

  // A quote or a backslash that the term does not contain splits the text in two.
  lemma {:induction false} SplitAt(fold: char -> char, a: string, c: char, b: string, s: string)
    requires FoldKeepsJson(fold) && Structural(c) && c !in s && s != ""
    ensures Contains(fold, a + [c] + b, s) <==> Contains(fold, a, s) || Contains(fold, b, s)
  {
    var t := a + [c] + b;
    assert t == a + ([c] + b);
    if i: nat :| i <= |a| && OccursFolded(fold, a, s, i) {
      OccursLeft(fold, a, [c] + b, s, i);
      assert OccursFolded(fold, t, s, i);
    }
    if i: nat :| i <= |b| && OccursFolded(fold, b, s, i) {
      OccursRight(fold, a + [c], b, s, i);
      assert OccursFolded(fold, t, s, |a + [c]| + i);
    }
    if i: nat :| i <= |t| && OccursFolded(fold, t, s, i) {
      NotAcross(fold, t, s, i, |a|);
      if i > |a| {
        OccursRight(fold, a + [c], b, s, i - |a| - 1);
        assert OccursFolded(fold, b, s, i - |a| - 1);
      } else {
        OccursLeft(fold, a, [c] + b, s, i);
        assert OccursFolded(fold, a, s, i);
      }
    }
  }

  lemma {:induction false} JsonBodyConcat(a: string, b: string)
    ensures JsonBody(a + b) == JsonBody(a) + JsonBody(b)
  {
    if a == [] {
      assert a + b == b;
    } else {
      assert (a + b)[1..] == a[1..] + b;
      JsonBodyConcat(a[1..], b);
    }
  }

  predicate Unescaped(s: string) {
    forall k :: 0 <= k < |s| ==> s[k] >= ' ' && s[k] != '"' && s[k] != '\\'
  }

  lemma {:induction false} JsonBodyOfPlain(s: string)
    requires Unescaped(s)
    ensures JsonBody(s) == s
  {
    if s != [] {
      JsonBodyOfPlain(s[1..]);
      assert s == [s[0]] + s[1..];
    }
  }

  // The first escaped character, or the end.
  function FirstEscaped(x: string): (n: nat)
    ensures n <= |x| && Unescaped(x[..n])
    ensures n < |x| ==> !(x[n] >= ' ' && x[n] != '"' && x[n] != '\\')
  {
    if x == [] || !(x[0] >= ' ' && x[0] != '"' && x[0] != '\\') then 0
    else
      var n := FirstEscaped(x[1..]);
      assert x[..n + 1] == [x[0]] + x[1..][..n];
      n + 1
  }

  // Not empty, without quotes and backslashes.
  predicate Quotable(s: string) {
    s != "" && '"' !in s && '\\' !in s
  }

  lemma {:induction false} NothingInEmpty(fold: char -> char, s: string)
    requires s != ""
    ensures !Contains(fold, "", s)
  {
  }

  lemma {:induction false} Regroup(a: string, x: char, y: char, b: string)
    ensures a + ([x, y] + b) == a + [x] + ([y] + b)
  {
  }

  lemma {:induction false} EscapedBody(a: string, c: char, b: string)
    requires Unescaped(a) && (c == '"' || c == '\\')
    ensures JsonBody(a + ([c] + b)) == a + ['\\'] + ([c] + JsonBody(b))
  {
    JsonBodyOfPlain(a);
    JsonBodyConcat(a, [c] + b);
    assert ([c] + b)[1..] == b;
    Regroup(a, '\\', c, JsonBody(b));
  }

  lemma {:induction false} SplitAtEscape(fold: char -> char, a: string, c: char, b: string, s: string)
    requires FoldKeepsJson(fold) && (c == '"' || c == '\\') && Quotable(s)
    ensures Contains(fold, a + ['\\'] + ([c] + b), s) <==> Contains(fold, a, s) || Contains(fold, b, s)
  {
    SplitAt(fold, a, '\\', [c] + b, s);
    assert [] + [c] + b == [c] + b;
    SplitAt(fold, [], c, b, s);
    NothingInEmpty(fold, s);
  }

  lemma {:induction false} BodyContains(fold: char -> char, x: string, s: string)
    requires FoldKeepsJson(fold) && Printable(x) && Quotable(s)
    ensures Contains(fold, JsonBody(x), s) <==> Contains(fold, x, s)
    decreases |x|
  {
    var n := FirstEscaped(x);
    if n == |x| {
      assert x[..n] == x;
      JsonBodyOfPlain(x);
    } else {
      var a, c, b := x[..n], x[n], x[n + 1..];
      assert x == a + [c] + b == a + ([c] + b);
      EscapedBody(a, c, b);
      SplitAtEscape(fold, a, c, JsonBody(b), s);
      SplitAt(fold, a, c, b, s);
      BodyContains(fold, b, s);
    }
  }

  /* ---- a backslash in front ---- */

  predicate EscapeTail(s: string) {
    |s| > 1 && s[0] == '\\' && Quotable(s[1..])
  }

  lemma {:induction false} OccursHead(fold: char -> char, t: string, w: string)
    requires w != ""
    ensures OccursFolded(fold, t, w, 0) <==>
      t != "" && fold(t[0]) == fold(w[0]) && OccursFolded(fold, t[1..], w[1..], 0)
  {
    if t != "" && |w| <= |t| {
      if fold(t[0]) == fold(w[0]) && OccursFolded(fold, t[1..], w[1..], 0) {
        forall k | 0 <= k < |w| ensures fold(t[0 + k]) == fold(w[k]) {
          assert k > 0 ==> fold(t[1..][0 + (k - 1)]) == fold(w[1..][k - 1]);
        }
      }
      if OccursFolded(fold, t, w, 0) {
        assert fold(t[0 + 0]) == fold(w[0]);
        forall k | 0 <= k < |w[1..]| ensures fold(t[1..][0 + k]) == fold(w[1..][k]) {
          assert fold(t[0 + (k + 1)]) == fold(w[k + 1]);
        }
      }
    }
  }

  // A plain term begins the body exactly when it begins the string.
  lemma {:induction false} PrefixBody(fold: char -> char, b: string, w: string)
    requires FoldKeepsJson(fold) && Printable(b) && '"' !in w && '\\' !in w
    ensures OccursFolded(fold, JsonBody(b), w, 0) <==> OccursFolded(fold, b, w, 0)
  {
    if w != "" && b != "" {
      OccursHead(fold, b, w);
      OccursHead(fold, JsonBody(b), w);
      assert w[0] in w;
      if b[0] != '"' && b[0] != '\\' {
        assert JsonBody(b) == [b[0]] + JsonBody(b[1..]);
        assert JsonBody(b)[1..] == JsonBody(b[1..]);
        forall x | x in w[1..] ensures x in w {
        }
        PrefixBody(fold, b[1..], w[1..]);
      }
    }
  }

  lemma {:induction false} NotBefore(u: string, v: string, i: nat)
    requires '\\' !in u && i < |u|
    ensures (u + v)[i] != '\\'
  {
    assert u[i] in u;
  }

  // An escape is no place for a plain term to begin at.
  lemma {:induction false} NotAtEscape(fold: char -> char, c: char, v: string, w: string)
    requires FoldKeepsJson(fold) && (c == '"' || c == '\\') && Quotable(w)
    ensures !OccursFolded(fold, [c] + v, w, 0)
  {
    OccursHead(fold, [c] + v, w);
    assert w[0] in w;
  }

  lemma {:induction false} TailIn(fold: char -> char, u: string, v: string, s: string)
    requires EscapeTail(s) && (OccursFolded(fold, v, s[1..], 0) || Contains(fold, v, s))
    ensures Contains(fold, u + ['\\'] + v, s)
  {
    var t := u + ['\\'] + v;
    if i: nat :| i <= |v| && OccursFolded(fold, v, s, i) {
      OccursRight(fold, u + ['\\'], v, s, i);
      assert OccursFolded(fold, t, s, |u + ['\\']| + i);
    } else {
      OccursHead(fold, ['\\'] + v, s);
      assert (['\\'] + v)[1..] == v;
      OccursRight(fold, u, ['\\'] + v, s, 0);
      assert t == u + (['\\'] + v);
      assert OccursFolded(fold, t, s, |u| + 0);
    }
  }

  lemma {:induction false} TailOut(fold: char -> char, u: string, v: string, s: string, i: nat)
    requires FoldKeepsJson(fold) && EscapeTail(s) && '\\' !in u
    requires OccursFolded(fold, u + (['\\'] + v), s, i)
    ensures OccursFolded(fold, v, s[1..], 0) || Contains(fold, v, s)
  {
    var w := ['\\'] + v;
    NotationMatches(fold, u + w, s, i, 0);
    if i < |u| {
      NotBefore(u, w, i);
    } else {
      OccursRight(fold, u, w, s, i - |u|);
      if i == |u| {
        OccursHead(fold, w, s);
        assert w[1..] == v;
      } else {
        OccursRight(fold, ['\\'], v, s, i - |u| - 1);
        assert OccursFolded(fold, v, s, i - |u| - 1);
      }
    }
  }

  // The first backslash of a text either starts an occurrence or is in front of all of them.
  lemma {:induction false} SplitTail(fold: char -> char, u: string, v: string, s: string)
    requires FoldKeepsJson(fold) && EscapeTail(s) && '\\' !in u
    ensures Contains(fold, u + ['\\'] + v, s) <==> OccursFolded(fold, v, s[1..], 0) || Contains(fold, v, s)
  {
    var t := u + ['\\'] + v;
    if OccursFolded(fold, v, s[1..], 0) || Contains(fold, v, s) {
      TailIn(fold, u, v, s);
    }
    if i: nat :| i <= |t| && OccursFolded(fold, t, s, i) {
      assert t == u + (['\\'] + v);
      TailOut(fold, u, v, s, i);
    }
  }

  lemma {:induction false} NeedsBackslash(fold: char -> char, t: string, s: string)
    requires FoldKeepsJson(fold) && '\\' in s && '\\' !in t
    ensures !Contains(fold, t, s)
  {
    var k :| 0 <= k < |s| && s[k] == '\\';
    forall i: nat | i + |s| <= |t| ensures !OccursFolded(fold, t, s, i) {
      NotationMatches(fold, t, s, i, k);
      assert t[i + k] in t;
    }
  }

  lemma {:induction false} TailPastQuote(fold: char -> char, a: string, b: string, s: string)
    requires FoldKeepsJson(fold) && EscapeTail(s) && '\\' !in a
    ensures Contains(fold, a + ['"'] + b, s) <==> Contains(fold, b, s)
  {
    assert '"' !in s;
    SplitAt(fold, a, '"', b, s);
    NeedsBackslash(fold, a, s);
  }

  lemma {:induction false} EscapedTail(fold: char -> char, a: string, c: char, rest: string, s: string)
    requires FoldKeepsJson(fold) && EscapeTail(s) && '\\' !in a && (c == '"' || c == '\\')
    ensures Contains(fold, a + ['\\'] + ([c] + rest), s) <==>
      Contains(fold, rest, s) || (c == '\\' && OccursFolded(fold, rest, s[1..], 0))
  {
    SplitTail(fold, a, [c] + rest, s);
    NotAtEscape(fold, c, rest, s[1..]);
    assert [] + [c] + rest == [c] + rest;
    if c == '"' {
      TailPastQuote(fold, [], rest, s);
    } else {
      SplitTail(fold, [], rest, s);
    }
  }

  lemma {:induction false} BodyContainsTail(fold: char -> char, x: string, s: string)
    requires FoldKeepsJson(fold) && Printable(x) && EscapeTail(s)
    ensures Contains(fold, JsonBody(x), s) <==> Contains(fold, x, s)
    decreases |x|
  {
    var n := FirstEscaped(x);
    if n == |x| {
      assert x[..n] == x;
      JsonBodyOfPlain(x);
    } else {
      var a, c, b := x[..n], x[n], x[n + 1..];
      assert x == a + [c] + b == a + ([c] + b);
      assert '\\' !in a;
      EscapedBody(a, c, b);
      EscapedTail(fold, a, c, JsonBody(b), s);
      BodyContainsTail(fold, b, s);
      if c == '"' {
        TailPastQuote(fold, a, b, s);
      } else {
        SplitTail(fold, a, b, s);
        PrefixBody(fold, b, s[1..]);
      }
    }
  }

  /* ---- element by element ---- */

  // The terms for which the search in the text is the search in the strings: without quotes, with no
  // backslash but one in front of something, and no piece of the notation.
  predicate Findable(s: string) {
    (Quotable(s) && !Notation(s)) || EscapeTail(s)
  }

  lemma {:induction false} NotationOnly(fold: char -> char, t: string, s: string)
    requires FoldKeepsJson(fold) && (t == "[" || t == "]" || t == "[]" || t == ", ")
    ensures Contains(fold, t, s) ==> Notation(s)
  {
    if i: nat :| i <= |t| && OccursFolded(fold, t, s, i) {
      forall k | 0 <= k < |s| ensures s[k] == t[i + k] {
        assert fold(t[i + k]) == fold(s[k]) && Structural(t[i + k]);
      }
      assert s == t[i..i + |s|];
    }
  }

  // What surrounds a string splits off.
  lemma {:induction false} AroundString(fold: char -> char, before: string, x: string, after: string, s: string)
    requires FoldKeepsJson(fold) && Printable(x) && Findable(s)
    requires before == "[" || before == ", "
    ensures Contains(fold, before + JsonString(x) + after, s) <==>
      Contains(fold, x, s) || Contains(fold, after, s)
  {
    assert before + JsonString(x) + after == before + ['"'] + (JsonBody(x) + ['"'] + after);
    NotationOnly(fold, before, s);
    SplitAt(fold, before, '"', JsonBody(x) + ['"'] + after, s);
    SplitAt(fold, JsonBody(x), '"', after, s);
    if EscapeTail(s) {
      BodyContainsTail(fold, x, s);
    } else {
      BodyContains(fold, x, s);
    }
  }

  lemma {:induction false} AnySplits(fold: char -> char, xs: seq<string>, s: string)
    requires xs != []
    ensures AnyContains(fold, xs, s) <==> Contains(fold, xs[0], s) || AnyContains(fold, xs[1..], s)
  {
    if k :| 0 <= k < |xs| && Contains(fold, xs[k], s) {
      assert k > 0 ==> Contains(fold, xs[1..][k - 1], s);
    }
    if k :| 0 <= k < |xs[1..]| && Contains(fold, xs[1..][k], s) {
      assert Contains(fold, xs[k + 1], s);
    }
  }

  lemma {:induction false} RestContains(fold: char -> char, xs: seq<string>, s: string)
    requires FoldKeepsJson(fold) && AllPrintable(xs) && Findable(s)
    ensures Contains(fold, JsonRest(xs), s) <==> AnyContains(fold, xs, s)
  {
    if xs == [] {
      NotationOnly(fold, "]", s);
    } else {
      AnySplits(fold, xs, s);
      AroundString(fold, ", ", xs[0], JsonRest(xs[1..]), s);
      RestContains(fold, xs[1..], s);
    }
  }

  lemma {:induction false} TextContainsIffElement(fold: char -> char, xs: seq<string>, s: string)
    requires FoldKeepsJson(fold) && AllPrintable(xs) && Findable(s)
    ensures Contains(fold, JsonText(xs), s) <==> AnyContains(fold, xs, s)
  {
    if xs == [] {
      NotationOnly(fold, "[]", s);
    } else {
      AnySplits(fold, xs, s);
      AroundString(fold, "[", xs[0], JsonRest(xs[1..]), s);
      RestContains(fold, xs[1..], s);
    }
  }

  /* ---- the terms for which it fails ---- */

  ghost predicate Disagree(fold: char -> char, xs: seq<string>, s: string) {
    AllPrintable(xs) && (Contains(fold, JsonText(xs), s) <==> !AnyContains(fold, xs, s))
  }

  const OPEN := "[\""
  const CLOSE := "\"]"

  function TextOfOne(x: string): string {
    OPEN + JsonBody(x) + CLOSE
  }

  lemma {:induction false} Enclosed(a: string, q: string, m: string, d: string)
    ensures (a + q) + m + (q + d) == a + (q + (m + q)) + d
  {
  }

  lemma {:induction false} TextOfOneIs(x: string)
    ensures JsonText([x]) == TextOfOne(x)
  {
    assert [x][1..] == [];
    assert JsonRest([]) == "]";
    assert OPEN == "[" + ['"'] && CLOSE == ['"'] + "]";
    Enclosed("[", ['"'], JsonBody(x), "]");
    assert ['"'] + JsonBody(x) + ['"'] == ['"'] + (JsonBody(x) + ['"']);
  }

  lemma {:induction false} Frame(a: string, b: string, s: string, c: string, d: string)
    ensures a + b + (s + c) + d == (a + b) + s + (c + d)
    ensures a + (b + s + c) + d == (a + b) + s + (c + d)
    ensures (a + b) + s + (c + d) == (a + b + s) + (c + d)
  {
  }

  lemma {:induction false} Regrouped(a: string, b: string, m: string, c: string, d: string)
    ensures a + (b + m) + (c + d) == (a + b) + (m + c) + d
  {
  }

  lemma {:induction false} Middle(fold: char -> char, a: string, s: string, b: string)
    ensures Contains(fold, a + s + b, s)
  {
    var t := a + s + b;
    assert forall k :: 0 <= k < |s| ==> fold(t[|a| + k]) == fold(s[k]);
    assert OccursFolded(fold, t, s, |a|);
  }

  lemma {:induction false} OnlyInText(fold: char -> char, x: string, s: string)
    requires Printable(x) && Contains(fold, TextOfOne(x), s) && !Contains(fold, x, s)
    ensures Disagree(fold, [x], s)
  {
    TextOfOneIs(x);
  }

  // The text of one string has the term, and the string is too short to.
  lemma {:induction false} TooShort(fold: char -> char, x: string, s: string)
    requires Printable(x) && |x| < |s| && Contains(fold, TextOfOne(x), s)
    ensures Disagree(fold, [x], s)
  {
    OnlyInText(fold, x, s);
  }

  lemma {:induction false} NotInItself(fold: char -> char, s: string)
    requires Printable(s) && !Contains(fold, TextOfOne(s), s)
    ensures Disagree(fold, [s], s)
  {
    TextOfOneIs(s);
    assert OccursFolded(fold, s, s, 0);
    assert Contains(fold, [s][0], s);
  }

  // Three ways to find a piece of the text: within the string, from its opening quote, to its closing one.
  lemma {:induction false} Within(fold: char -> char, x: string, a: string, s: string, b: string)
    requires JsonBody(x) == a + s + b
    ensures Contains(fold, TextOfOne(x), s)
  {
    Frame(OPEN, a, s, b, CLOSE);
    Middle(fold, OPEN + a, s, b + CLOSE);
  }

  lemma {:induction false} FromQuote(fold: char -> char, x: string, m: string, b: string)
    requires JsonBody(x) == m + b
    ensures Contains(fold, TextOfOne(x), ['"'] + m)
  {
    assert OPEN == "[" + ['"'];
    Frame("[", ['"'], m, b, CLOSE);
    assert "[" + ['"'] + m == "[" + (['"'] + m);
    Middle(fold, "[", ['"'] + m, b + CLOSE);
  }

  lemma {:induction false} ToQuote(fold: char -> char, x: string, a: string, m: string)
    requires JsonBody(x) == a + m
    ensures Contains(fold, TextOfOne(x), m + ['"'])
  {
    assert CLOSE == ['"'] + "]";
    Regrouped(OPEN, a, m, ['"'], "]");
    Middle(fold, OPEN + a, m + ['"'], "]");
  }

  lemma {:induction false} Literally(fold: char -> char, t: string, s: string, i: nat)
    requires i + |s| <= |t| && t[i..i + |s|] == s
    ensures Contains(fold, t, s)
  {
    Middle(fold, t[..i], s, t[i + |s|..]);
    assert t == t[..i] + t[i..i + |s|] + t[i + |s|..];
  }

  lemma {:induction false} NotationDisagrees(fold: char -> char, s: string) returns (xs: seq<string>)
    requires Notation(s)
    ensures Disagree(fold, xs, s)
  {
    if s == "" || s == "[" || s == "]" || s == "[]" {
      xs := [];
      Literally(fold, JsonText(xs), s, if s == "]" then 1 else 0);
    } else {
      xs := ["", ""];
      assert xs[1..] == [""] && JsonRest([]) == "]" && JsonRest([""]) == ", \"\"]";
      assert JsonText(xs) == "[\"\", \"\"]";
      Literally(fold, JsonText(xs), s, if s == " " then 4 else 3);
    }
  }

  predicate Escaping(c: char) {
    c == '"' || c == '\\'
  }

  lemma {:induction false} BodyLength(s: string)
    requires Printable(s)
    ensures |JsonBody(s)| >= |s|
    ensures (exists k :: 0 <= k < |s| && Escaping(s[k])) ==> |JsonBody(s)| > |s|
  {
    if s != "" {
      BodyLength(s[1..]);
      if k :| 0 <= k < |s| && Escaping(s[k]) {
        assert k > 0 ==> Escaping(s[1..][k - 1]);
      }
    }
  }

  lemma {:induction false} OneChar(c: char)
    ensures JsonBody([c]) == JsonChar(c)
  {
    assert [c][1..] == [];
  }

  lemma {:induction false} TextCons(c: char, rest: string)
    ensures TextOfOne([c] + rest) == (OPEN + JsonChar(c)) + (JsonBody(rest) + CLOSE)
  {
    JsonBodyConcat([c], rest);
    OneChar(c);
    Frame("", OPEN, JsonChar(c), JsonBody(rest), CLOSE);
  }

  lemma {:induction false} TextSnoc(init: string, c: char)
    ensures TextOfOne(init + [c]) == (OPEN + JsonBody(init)) + (JsonChar(c) + CLOSE)
  {
    JsonBodyConcat(init, [c]);
    OneChar(c);
    Frame("", OPEN, JsonBody(init), JsonChar(c), CLOSE);
  }

  lemma {:induction false} OccursBehind(fold: char -> char, a: string, b: string, tail: string, s: string, i: nat)
    requires OccursFolded(fold, a + tail, s, i) && i >= |a|
    ensures Contains(fold, b + tail, s)
  {
    OccursRight(fold, a, tail, s, i - |a|);
    OccursRight(fold, b, tail, s, i - |a|);
    assert OccursFolded(fold, b + tail, s, |b| + (i - |a|));
  }

  lemma {:induction false} OccursBefore(fold: char -> char, head: string, a: string, b: string, s: string, i: nat)
    requires OccursFolded(fold, head + a, s, i) && i + |s| <= |head|
    ensures Contains(fold, head + b, s)
  {
    OccursLeft(fold, head, a, s, i);
    OccursLeft(fold, head, b, s, i);
    assert OccursFolded(fold, head + b, s, i);
  }

  // An occurrence behind the first character's escape is one in the text without that character.
  lemma {:induction false} FitsWithoutFirst(fold: char -> char, c: char, rest: string, s: string, i: nat)
    requires OccursFolded(fold, TextOfOne([c] + rest), s, i) && i >= 2 + |JsonChar(c)|
    requires Printable(rest) && |rest| < |s|
    ensures Disagree(fold, [rest], s)
  {
    TextCons(c, rest);
    OccursBehind(fold, OPEN + JsonChar(c), OPEN, JsonBody(rest) + CLOSE, s, i);
    Frame("", OPEN, JsonBody(rest), "", CLOSE);
    assert TextOfOne(rest) == OPEN + (JsonBody(rest) + CLOSE);
    TooShort(fold, rest, s);
  }

  lemma {:induction false} FitsWithoutLast(fold: char -> char, init: string, c: char, s: string, i: nat)
    requires OccursFolded(fold, TextOfOne(init + [c]), s, i) && i + |s| <= 2 + |JsonBody(init)|
    requires Printable(init) && |init| < |s|
    ensures Disagree(fold, [init], s)
  {
    TextSnoc(init, c);
    OccursBefore(fold, OPEN + JsonBody(init), JsonChar(c) + CLOSE, CLOSE, s, i);
    TooShort(fold, init, s);
  }

  lemma {:induction false} InitLength(s: string, p: nat)
    requires Printable(s) && 0 < p < |s| - 1 && Escaping(s[p])
    ensures |JsonBody(s[..|s| - 1])| >= |JsonChar(s[0])| + |s| - 1
  {
    var middle := s[1..|s| - 1];
    assert s[..|s| - 1] == [s[0]] + middle;
    JsonBodyConcat([s[0]], middle);
    OneChar(s[0]);
    assert Escaping(middle[p - 1]);
    BodyLength(middle);
  }

  // Escaped in the middle, the term does not fit into the text of itself, or fits without its first or
  // without its last character.
  lemma {:induction false} InnerEscapeDisagrees(fold: char -> char, s: string, p: nat) returns (xs: seq<string>)
    requires Printable(s) && 0 < p < |s| - 1 && Escaping(s[p])
    ensures Disagree(fold, xs, s)
  {
    var n := |s| - 1;
    assert s == [s[0]] + s[1..] && s == s[..n] + [s[n]];
    if i: nat :| i <= |TextOfOne(s)| && OccursFolded(fold, TextOfOne(s), s, i) {
      if i >= 2 + |JsonChar(s[0])| {
        xs := [s[1..]];
        FitsWithoutFirst(fold, s[0], s[1..], s, i);
      } else {
        xs := [s[..n]];
        InitLength(s, p);
        FitsWithoutLast(fold, s[..n], s[n], s, i);
      }
    } else {
      xs := [s];
      NotInItself(fold, s);
    }
  }

  lemma {:induction false} LastDiffers(fold: char -> char, x: string, s: string)
    requires FoldKeepsJson(fold) && |x| == |s| > 0 && Structural(x[|x| - 1]) && x[|x| - 1] != s[|s| - 1]
    ensures !Contains(fold, x, s)
  {
    NotationMatches(fold, x, s, 0, |s| - 1);
  }

  // The text of w with a quote behind it.
  lemma {:induction false} QuoteBehind(w: string)
    requires Unescaped(w)
    ensures JsonBody(w + ['"']) == (w + ['\\']) + ['"']
  {
    JsonBodyConcat(w, ['"']);
    JsonBodyOfPlain(w);
    OneChar('"');
  }

  // A term that ends in a backslash finds the escape of a quote in the text.
  lemma {:induction false} PlainThenBackslash(fold: char -> char, w: string)
    requires FoldKeepsJson(fold) && Unescaped(w)
    ensures Disagree(fold, [w + ['"']], w + ['\\'])
  {
    var s, x := w + ['\\'], w + ['"'];
    QuoteBehind(w);
    assert [] + s + ['"'] == s + ['"'];
    Within(fold, x, [], s, ['"']);
    NeedsBackslash(fold, x, s);
    OnlyInText(fold, x, s);
  }

  lemma {:induction false} QuoteThenBackslash(fold: char -> char, w: string)
    requires FoldKeepsJson(fold) && Unescaped(w)
    ensures Disagree(fold, [w + ['"']], ['"'] + (w + ['\\']))
  {
    var m, x := w + ['\\'], w + ['"'];
    QuoteBehind(w);
    FromQuote(fold, x, m, ['"']);
    NeedsBackslash(fold, x, ['"'] + m);
    OnlyInText(fold, x, ['"'] + m);
  }

  lemma {:induction false} BackslashFirst(v: string)
    ensures JsonBody(['\\'] + v) == ['\\'] + (['\\'] + JsonBody(v))
  {
    JsonBodyConcat(['\\'], v);
    OneChar('\\');
  }

  lemma {:induction false} BackslashThenBackslash(fold: char -> char, w: string)
    requires FoldKeepsJson(fold) && Unescaped(w)
    ensures Disagree(fold, [['\\'] + (w + ['"'])], ['\\'] + (w + ['\\']))
  {
    var m, x := w + ['\\'], ['\\'] + (w + ['"']);
    var s := ['\\'] + m;
    QuoteBehind(w);
    BackslashFirst(w + ['"']);
    assert ['\\'] + (['\\'] + (m + ['"'])) == ['\\'] + s + ['"'];
    Within(fold, x, ['\\'], s, ['"']);
    LastDiffers(fold, x, s);
    OnlyInText(fold, x, s);
  }

  // A term that begins or ends with a quote finds one of the text's own.
  lemma {:induction false} QuoteFirst(fold: char -> char, w: string)
    requires Unescaped(w)
    ensures Disagree(fold, [w], ['"'] + w)
  {
    JsonBodyOfPlain(w);
    assert w + [] == w;
    FromQuote(fold, w, w, []);
    TooShort(fold, w, ['"'] + w);
  }

  lemma {:induction false} QuoteLast(fold: char -> char, w: string)
    requires Unescaped(w)
    ensures Disagree(fold, [w], w + ['"'])
  {
    JsonBodyOfPlain(w);
    assert [] + w == w;
    ToQuote(fold, w, [], w);
    TooShort(fold, w, w + ['"']);
  }

  lemma {:induction false} QuoteBothEnds(fold: char -> char, w: string)
    requires Unescaped(w)
    ensures Disagree(fold, [w], ['"'] + (w + ['"']))
  {
    JsonBodyOfPlain(w);
    assert OPEN == "[" + ['"'] && CLOSE == ['"'] + "]";
    Enclosed("[", ['"'], w, "]");
    Middle(fold, "[", ['"'] + (w + ['"']), "]");
    TooShort(fold, w, ['"'] + (w + ['"']));
  }

  lemma {:induction false} BackslashThenQuote(fold: char -> char, w: string)
    requires Unescaped(w)
    ensures Disagree(fold, [['\\'] + w], ['\\'] + (w + ['"']))
  {
    var m, x := ['\\'] + w, ['\\'] + w;
    BackslashFirst(w);
    JsonBodyOfPlain(w);
    ToQuote(fold, x, ['\\'], m);
    assert m + ['"'] == ['\\'] + (w + ['"']);
    TooShort(fold, x, m + ['"']);
  }

  lemma {:induction false} LastDisagrees(fold: char -> char, w: string, d: char) returns (xs: seq<string>)
    requires FoldKeepsJson(fold) && Unescaped(w) && Escaping(d)
    ensures Disagree(fold, xs, w + [d])
  {
    if d == '"' {
      QuoteLast(fold, w);
      xs := [w];
    } else {
      PlainThenBackslash(fold, w);
      xs := [w + ['"']];
    }
  }

  lemma {:induction false} BothEndsDisagree(fold: char -> char, c: char, w: string, d: char) returns (xs: seq<string>)
    requires FoldKeepsJson(fold) && Unescaped(w) && Escaping(c) && Escaping(d)
    ensures Disagree(fold, xs, [c] + (w + [d]))
  {
    if c == '"' && d == '"' {
      QuoteBothEnds(fold, w);
      xs := [w];
    } else if c == '"' {
      QuoteThenBackslash(fold, w);
      xs := [w + ['"']];
    } else if d == '"' {
      BackslashThenQuote(fold, w);
      xs := [['\\'] + w];
    } else {
      BackslashThenBackslash(fold, w);
      xs := [['\\'] + (w + ['"'])];
    }
  }

  lemma {:induction false} PlainBetween(s: string, a: nat, b: nat)
    requires Printable(s) && a <= b <= |s| && forall k :: a <= k < b ==> !Escaping(s[k])
    ensures Unescaped(s[a..b])
  {
  }

  lemma {:induction false} OuterEscapeDisagrees(fold: char -> char, s: string) returns (xs: seq<string>)
    requires FoldKeepsJson(fold) && Printable(s) && s != "" && !EscapeTail(s)
    requires Escaping(s[0]) || Escaping(s[|s| - 1])
    requires forall k :: 0 < k < |s| - 1 ==> !Escaping(s[k])
    ensures Disagree(fold, xs, s)
  {
    var n := |s| - 1;
    if n == 0 || !Escaping(s[0]) {
      PlainBetween(s, 0, n);
      assert s == s[..n] + [s[n]] && s[0..n] == s[..n];
      xs := LastDisagrees(fold, s[..n], s[n]);
    } else if Escaping(s[n]) {
      PlainBetween(s, 1, n);
      assert s == [s[0]] + (s[1..n] + [s[n]]);
      xs := BothEndsDisagree(fold, s[0], s[1..n], s[n]);
    } else {
      PlainBetween(s, 1, n + 1);
      assert s == [s[0]] + s[1..] && s[1..n + 1] == s[1..];
      xs := [s[1..]];
      QuoteFirst(fold, s[1..]);
      assert Quotable(s[1..]);
    }
  }

  lemma {:induction false} OthersDisagree(fold: char -> char, s: string) returns (xs: seq<string>)
    requires FoldKeepsJson(fold) && Printable(s) && !Findable(s)
    ensures Disagree(fold, xs, s)
  {
    if Notation(s) {
      xs := NotationDisagrees(fold, s);
    } else if p: nat :| 0 < p < |s| - 1 && Escaping(s[p]) {
      xs := InnerEscapeDisagrees(fold, s, p);
    } else {
      xs := OuterEscapeDisagrees(fold, s);
    }
  }

  ghost predicate SearchesElements(fold: char -> char, s: string) {
    forall xs :: AllPrintable(xs) ==> (Contains(fold, JsonText(xs), s) <==> AnyContains(fold, xs, s))
  }

  // Searching the JSON text of a list is searching its strings, whatever the list, exactly for these terms.
  lemma {:induction false} SearchesElementsIff(fold: char -> char, s: string)
    requires FoldKeepsJson(fold) && Printable(s)
    ensures SearchesElements(fold, s) <==> Findable(s)
  {
    if Findable(s) {
      forall xs | AllPrintable(xs) ensures Contains(fold, JsonText(xs), s) <==> AnyContains(fold, xs, s) {
        TextContainsIffElement(fold, xs, s);
      }
    } else {
      var xs := OthersDisagree(fold, s);
    }
  }

  // A term with a quote is searched for as it is, while the text has an escaped one: the choice a"b is not
  // found by its own text.
  lemma {:induction false} QuotedTermMisses(fold: char -> char)
    requires FoldKeepsJson(fold)
    ensures AnyContains(fold, ["a\"b"], "a\"b") && !Contains(fold, JsonText(["a\"b"]), "a\"b")
  {
    var s := "a\"b";
    assert OccursFolded(fold, s, s, 0);
    assert Contains(fold, [s][0], s);
    assert s[1..] == "\"b" && s[1..][1..] == "b" && s[1..][1..][1..] == "";
    assert JsonBody("b") == "b" && JsonBody("\"b") == "\\\"b" && JsonBody(s) == "a\\\"b";
    var t := JsonText([s]);
    TextOfOneIs(s);
    assert t == "[\"a\\\"b\"]";
    forall i: nat | i + |s| <= |t| ensures !OccursFolded(fold, t, s, i) {
      NotationMatches(fold, t, s, i, 0);
      NotationMatches(fold, t, s, i, 1);
      NotationMatches(fold, t, s, i, 2);
    }
  }
}
