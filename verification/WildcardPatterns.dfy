/** The `startswith(pattern.replace("*", ""))` match of the standard policies (`sidecar/evaluator.py`). */
module WildcardPatterns {
  import opened Text

  /** `p.replace("*", "")` */
  function DeleteStars(p: string): (r: string)
    ensures '*' !in r
    ensures '*' !in p ==> r == p
  {
    if p == "" then ""
    else if p[0] == '*' then DeleteStars(p[1..])
    else [p[0]] + DeleteStars(p[1..])
  }

  predicate MatchesPattern(s: string, pattern: string) {
    StartsWith(s, DeleteStars(pattern))
  }

  /** `("*" in patterns) or any(...)` */
  predicate MatchesAny(s: string, patterns: seq<string>) {
    "*" in patterns || exists i :: 0 <= i < |patterns| && MatchesPattern(s, patterns[i])
  }

  /** The separate test for `"*"` decides nothing. */
  lemma StarTestRedundant(s: string, patterns: seq<string>)
    ensures MatchesAny(s, patterns) <==> exists p :: p in patterns && MatchesPattern(s, p)
  {
    if "*" in patterns {
      assert DeleteStars("*") == DeleteStars("*"[1..]) == "";
      assert MatchesPattern(s, "*");
    }
  }

  /** Glob semantics: a star stands for any text, every other character for itself. */
  predicate Glob(p: string, s: string)
    decreases |p| + |s|
  {
    if p == "" then s == ""
    else if p[0] == '*' then Glob(p[1..], s) || (s != "" && Glob(p, s[1..]))
    else s != "" && s[0] == p[0] && Glob(p[1..], s[1..])
  }

  /** Some stars, all of them at the end. */
  predicate TrailingStarsOnly(p: string) {
    |DeleteStars(p)| < |p| && StartsWith(p, DeleteStars(p))
  }

  lemma {:induction false} DeleteStarsConcat(a: string, b: string)
    ensures DeleteStars(a + b) == DeleteStars(a) + DeleteStars(b)
  {
    if a == "" {
      assert a + b == b;
    } else {
      assert (a + b)[1..] == a[1..] + b;
      DeleteStarsConcat(a[1..], b);
    }
  }

  lemma {:induction false} DeleteStarsEmptyIff(p: string)
    ensures DeleteStars(p) == "" <==> forall i :: 0 <= i < |p| ==> p[i] == '*'
    ensures |DeleteStars(p)| <= |p|
  {
    if p != "" {
      DeleteStarsEmptyIff(p[1..]);
      assert forall i :: 1 <= i < |p| ==> p[i] == p[1..][i - 1];
      assert forall i :: 0 <= i < |p[1..]| ==> p[1..][i] == p[i + 1];
    }
  }

  /** Dropping the stars of a pattern gives a text the pattern globs. */
  lemma {:induction false} GlobsItsOwnText(p: string)
    ensures Glob(p, DeleteStars(p))
  {
    if p != "" {
      GlobsItsOwnText(p[1..]);
      if p[0] != '*' {
        assert DeleteStars(p)[1..] == DeleteStars(p[1..]);
      }
    }
  }

  lemma {:induction false} GlobLiteralPrefix(q: string, p: string, s: string)
    requires '*' !in q
    ensures Glob(q + p, s) <==> StartsWith(s, q) && Glob(p, s[|q|..])
  {
    if q == "" {
      assert q + p == p && s[|q|..] == s;
    } else {
      assert (q + p)[1..] == q[1..] + p;
      assert q == [q[0]] + q[1..];
      if s != "" && s[0] == q[0] {
        GlobLiteralPrefix(q[1..], p, s[1..]);
        assert s == [s[0]] + s[1..];
        assert StartsWith(s, q) <==> StartsWith(s[1..], q[1..]);
        if StartsWith(s, q) {
          assert s[|q|..] == s[1..][|q[1..]|..];
        }
      }
    }
  }

  lemma {:induction false} GlobAllStars(p: string, s: string)
    requires p != "" && forall i :: 0 <= i < |p| ==> p[i] == '*'
    ensures Glob(p, s)
    decreases |p|, |s|
  {
    if s != "" {
      GlobAllStars(p, s[1..]);
    } else if |p| == 1 {
      assert Glob(p[1..], s);
    } else {
      GlobAllStars(p[1..], s);
    }
  }

  /** A pattern that ends in a literal only globs texts ending in that literal. */
  lemma {:induction false} GlobLastLiteral(p: string, s: string)
    requires p != "" && p[|p| - 1] != '*' && Glob(p, s)
    ensures s != "" && s[|s| - 1] == p[|p| - 1]
    decreases |p| + |s|
  {
    if p[0] == '*' {
      if Glob(p[1..], s) {
        GlobLastLiteral(p[1..], s);
      } else {
        GlobLastLiteral(p, s[1..]);
      }
    } else if |p| > 1 {
      GlobLastLiteral(p[1..], s[1..]);
    } else {
      assert p[1..] == "";
    }
  }

  function OtherChar(c: char): char {
    if c == 'a' then 'b' else 'a'
  }

  lemma TrailingStarsGlob(p: string, s: string)
    requires TrailingStarsOnly(p)
    ensures MatchesPattern(s, p) <==> Glob(p, s)
  {
    var q := DeleteStars(p);
    var stars := p[|q|..];
    assert p == q + stars;
    DeleteStarsConcat(q, stars);
    DeleteStarsEmptyIff(stars);
    GlobLiteralPrefix(q, stars, s);
    if StartsWith(s, q) {
      GlobAllStars(stars, s[|q|..]);
    }
  }

  /** Splits a pattern at its first star. */
  lemma {:induction false} FirstStar(p: string) returns (q: string, rest: string)
    requires '*' in p
    ensures p == q + "*" + rest && '*' !in q
  {
    if p[0] == '*' {
      q, rest := "", p[1..];
    } else {
      assert p == [p[0]] + p[1..];
      q, rest := FirstStar(p[1..]);
      q := [p[0]] + q;
    }
  }

  lemma DeleteStarsAround(q: string, rest: string)
    requires '*' !in q
    ensures DeleteStars(q + "*" + rest) == q + DeleteStars(rest)
  {
    var star := "*";
    assert DeleteStars(star) == "" by {
      assert star[1..] == "";
    }
    DeleteStarsConcat(q, star);
    DeleteStarsConcat(q + star, rest);
  }

  /** A star before a literal: the glob skips a character there, the prefix test does not. */
  lemma InnerStarSkips(q: string, rest: string) returns (s: string)
    requires '*' !in q && DeleteStars(rest) != ""
    ensures Glob(q + "*" + rest, s) && !MatchesPattern(s, q + "*" + rest)
  {
    var literal := DeleteStars(rest);
    var tail, after := "*" + rest, [OtherChar(literal[0])] + literal;
    StarSkips(rest, after);
    s := q + after;
    assert s[|q|..] == after && q + "*" + rest == q + tail;
    GlobLiteralPrefix(q, tail, s);
    DeleteStarsAround(q, rest);
    assert s[|q|] == after[0] && (q + literal)[|q|] == literal[0];
  }

  /** A star and then `rest` globs the text of `rest` behind one more character. */
  lemma StarSkips(rest: string, after: string)
    requires after != "" && after[1..] == DeleteStars(rest)
    ensures Glob("*" + rest, after)
  {
    var tail := "*" + rest;
    GlobsItsOwnText(rest);
    assert tail[1..] == rest;
    assert Glob(tail, after[1..]);
  }

  /** Outside the trailing-star shape some text tells the two readings apart. */
  lemma PrefixIsNotGlob(p: string) returns (s: string)
    requires !TrailingStarsOnly(p)
    ensures MatchesPattern(s, p) != Glob(p, s)
  {
    if p == "" {
      s := "a";
    } else if p[|p| - 1] != '*' {
      s := DeleteStars(p) + [OtherChar(p[|p| - 1])];
      if Glob(p, s) {
        GlobLastLiteral(p, s);
      }
    } else {
      var q, rest := FirstStar(p);
      DeleteStarsAround(q, rest);
      assert StartsWith(p, q);
      s := InnerStarSkips(q, rest);
    }
  }

  /** Exactly which patterns mean what a glob would mean, on every text. */
  lemma PrefixMatchIsGlobIff(p: string)
    ensures (forall s :: MatchesPattern(s, p) <==> Glob(p, s)) <==> TrailingStarsOnly(p)
  {
    if TrailingStarsOnly(p) {
      forall s ensures MatchesPattern(s, p) <==> Glob(p, s) {
        TrailingStarsGlob(p, s);
      }
    } else {
      var s := PrefixIsNotGlob(p);
    }
  }
}
