/** A user's search term, escaped and wrapped in '%', under LIKE and ILIKE (section 9.7.1 of the PostgreSQL
    manual; the escape character is the backslash). */
module Search {

  // strings.ReplaceAll with a one-character pattern.
  function ReplaceAll(s: string, c: char, with: string): string {
    if s == [] then [] else (if s[0] == c then with else [s[0]]) + ReplaceAll(s[1..], c, with)
  }

  function EscapeLike(s: string): string {
    var s1 := ReplaceAll(s, '\\', "\\\\");
    var s2 := ReplaceAll(s1, '%', "\\%");
    ReplaceAll(s2, '_', "\\_")
  }

  predicate Special(c: char) {
    c == '\\' || c == '%' || c == '_'
  }

  // Every special character preceded by one backslash, everything else unchanged.
  function Escaped(s: string): string {
    if s == [] then [] else (if Special(s[0]) then ['\\', s[0]] else [s[0]]) + Escaped(s[1..])
  }

  // A pattern that ends in a lone backslash is an error in PostgreSQL and matches nothing here.
  predicate Like(t: string, p: string)
    decreases |t| + |p|
  {
    if p == [] then t == []
    else if p[0] == '%' then Like(t, p[1..]) || (t != [] && Like(t[1..], p))
    else if t == [] then false
    else if p[0] == '_' then Like(t[1..], p[1..])
    else if p[0] == '\\' then |p| > 1 && t[0] == p[1] && Like(t[1..], p[2..])
    else t[0] == p[0] && Like(t[1..], p[1..])
  }

  function FoldAll(fold: char -> char, s: string): (r: string)
    ensures |r| == |s| && forall i :: 0 <= i < |s| ==> r[i] == fold(s[i])
  {
    if s == [] then [] else [fold(s[0])] + FoldAll(fold, s[1..])
  }

  // ILIKE compares both sides after case folding.
  predicate ILike(fold: char -> char, t: string, p: string) {
    Like(FoldAll(fold, t), FoldAll(fold, p))
  }

  // Case folding leaves the pattern characters alone.
  ghost predicate FoldOk(fold: char -> char) {
    forall c :: (Special(c) ==> fold(c) == c) && (Special(fold(c)) ==> Special(c))
  }

  lemma {:induction false} ReplaceAllConcat(a: string, b: string, c: char, with: string)
    ensures ReplaceAll(a + b, c, with) == ReplaceAll(a, c, with) + ReplaceAll(b, c, with)
  {
    if a == [] {
      assert a + b == b;
    } else {
      assert (a + b)[1..] == a[1..] + b;
      ReplaceAllConcat(a[1..], b, c, with);
    }
  }

  lemma {:induction false} EscapeLikeConcat(a: string, b: string)
    ensures EscapeLike(a + b) == EscapeLike(a) + EscapeLike(b)
  {
    var a1, b1 := ReplaceAll(a, '\\', "\\\\"), ReplaceAll(b, '\\', "\\\\");
    ReplaceAllConcat(a, b, '\\', "\\\\");
    ReplaceAllConcat(a1, b1, '%', "\\%");
    ReplaceAllConcat(ReplaceAll(a1, '%', "\\%"), ReplaceAll(b1, '%', "\\%"), '_', "\\_");
  }

  lemma {:induction false} ReplaceOne(c: char, d: char, with: string)
    ensures ReplaceAll([d], c, with) == if d == c then with else [d]
  {
    assert [d][1..] == [];
  }

  lemma {:induction false} ReplaceTwo(x: char, y: char, c: char, with: string)
    ensures ReplaceAll([x, y], c, with) == (if x == c then with else [x]) + (if y == c then with else [y])
  {
    assert [x, y] == [x] + [y];
    ReplaceAllConcat([x], [y], c, with);
    ReplaceOne(c, x, with);
    ReplaceOne(c, y, with);
  }

  lemma {:induction false} EscapeOne(c: char)
    ensures EscapeLike([c]) == if Special(c) then ['\\', c] else [c]
  {
    ReplaceOne('\\', c, "\\\\");
    ReplaceOne('%', c, "\\%");
    ReplaceOne('_', c, "\\_");
    ReplaceTwo('\\', '\\', '%', "\\%");
    ReplaceTwo('\\', '\\', '_', "\\_");
    ReplaceTwo('\\', '%', '_', "\\_");
  }

  // The three passes never escape what an earlier pass inserted.
  lemma {:induction false} ThreePassesAreOne(s: string)
    ensures EscapeLike(s) == Escaped(s)
  {
    if s != [] {
      assert s == [s[0]] + s[1..];
      EscapeLikeConcat([s[0]], s[1..]);
      EscapeOne(s[0]);
      ThreePassesAreOne(s[1..]);
    }
  }

  lemma {:induction false} EscapedMatchesLiterally(t: string, s: string, q: string)
    ensures Like(t, Escaped(s) + q) <==> s <= t && Like(t[|s|..], q)
    decreases |s|
  {
    if s == [] {
      assert Escaped(s) + q == q && t[0..] == t;
    } else {
      var p := Escaped(s) + q;
      var rest := Escaped(s[1..]) + q;
      if Special(s[0]) {
        assert p == ['\\', s[0]] + rest;
        assert p[2..] == rest;
      } else {
        assert p == [s[0]] + rest;
        assert p[1..] == rest;
      }
      if t != [] && t[0] == s[0] {
        EscapedMatchesLiterally(t[1..], s[1..], q);
        if |s| <= |t| {
          assert t[1..][|s[1..]|..] == t[|s|..];
        }
        assert s <= t <==> s[1..] <= t[1..] by {
          assert s == [s[0]] + s[1..] && t == [t[0]] + t[1..];
        }
      }
    }
  }

  lemma {:induction false} PercentMatchesAll(t: string)
    ensures Like(t, "%")
  {
    if t == [] {
      assert "%"[1..] == [];
    } else {
      PercentMatchesAll(t[1..]);
    }
  }

  predicate OccursAt(t: string, s: string, i: nat) {
    i + |s| <= |t| && t[i..i + |s|] == s
  }

  lemma {:induction false} OccursShift(t: string, s: string, i: nat)
    requires t != []
    ensures OccursAt(t[1..], s, i) <==> OccursAt(t, s, i + 1)
  {
    if i + 1 + |s| <= |t| {
      assert t[1..][i..i + |s|] == t[i + 1..i + 1 + |s|];
    }
  }

  lemma {:induction false} WrappedPatternOccurs(t: string, s: string)
    ensures Like(t, "%" + Escaped(s) + "%") <==> exists i: nat :: OccursAt(t, s, i)
  {
    var p := "%" + Escaped(s) + "%";
    assert p[1..] == Escaped(s) + "%";
    EscapedMatchesLiterally(t, s, "%");
    if s <= t {
      PercentMatchesAll(t[|s|..]);
      assert OccursAt(t, s, 0);
    }
    if t != [] {
      WrappedPatternOccurs(t[1..], s);
      if i: nat :| OccursAt(t, s, i) {
        if i > 0 {
          OccursShift(t, s, i - 1);
        }
      }
      if i: nat :| OccursAt(t[1..], s, i) {
        OccursShift(t, s, i);
      }
    }
  }

  lemma {:induction false} FoldConcat(fold: char -> char, a: string, b: string)
    ensures FoldAll(fold, a + b) == FoldAll(fold, a) + FoldAll(fold, b)
  {
  }

  lemma {:induction false} FoldEscaped(fold: char -> char, s: string)
    requires FoldOk(fold)
    ensures FoldAll(fold, Escaped(s)) == Escaped(FoldAll(fold, s))
  {
    if s != [] {
      var head := if Special(s[0]) then ['\\', s[0]] else [s[0]];
      FoldConcat(fold, head, Escaped(s[1..]));
      FoldEscaped(fold, s[1..]);
      assert Special('\\');
    }
  }

  // The term occurs contiguously in the text, character by character up to case.
  predicate OccursFolded(fold: char -> char, t: string, s: string, i: nat) {
    i + |s| <= |t| && forall k :: 0 <= k < |s| ==> fold(t[i + k]) == fold(s[k])
  }

  lemma {:induction false} SearchIsLiteral(fold: char -> char, t: string, s: string)
    requires FoldOk(fold)
    ensures ILike(fold, t, "%" + EscapeLike(s) + "%") <==> exists i: nat :: OccursFolded(fold, t, s, i)
  {
    ThreePassesAreOne(s);
    FoldConcat(fold, "%" + Escaped(s), "%");
    FoldConcat(fold, "%", Escaped(s));
    FoldEscaped(fold, s);
    assert Special('%');
    assert FoldAll(fold, "%") == "%";
    var ft, fs := FoldAll(fold, t), FoldAll(fold, s);
    WrappedPatternOccurs(ft, fs);
    forall i: nat ensures OccursAt(ft, fs, i) <==> OccursFolded(fold, t, s, i) {
      if i + |s| <= |t| {
        var window := ft[i..i + |s|];
        assert forall k :: 0 <= k < |s| ==> window[k] == fold(t[i + k]);
      }
    }
  }

  predicate Contains(fold: char -> char, t: string, s: string) {
    exists i: nat :: i <= |t| && OccursFolded(fold, t, s, i)
  }

  lemma {:induction false} ContainsIffOccurs(fold: char -> char, t: string, s: string)
    ensures Contains(fold, t, s) <==> exists i: nat :: OccursFolded(fold, t, s, i)
  {
    if i: nat :| OccursFolded(fold, t, s, i) {
      assert i <= |t|;
    }
  }
}
