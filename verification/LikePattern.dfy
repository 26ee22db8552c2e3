/**
 Title suggestions match `"%" + escape(p) + "%"` with ILIKE. The matcher below is
 LIKE as section 9.7.1 of the PostgreSQL manual defines it, backslash escape.
 */
module LikePattern {

  predicate IsMeta(c: char) {
    c == '\\' || c == '%' || c == '_'
  }

  /** The replacer: every metacharacter gets a backslash in front of it. */
  function Escape(s: string): string {
    if s == [] then []
    else (if IsMeta(s[0]) then ['\\', s[0]] else [s[0]]) + Escape(s[1..])
  }

  /** PostgreSQL raises an error for a pattern that ends in an unpaired backslash. */
  predicate WellFormed(pattern: string) {
    if pattern == [] then true
    else if pattern[0] == '\\' then |pattern| >= 2 && WellFormed(pattern[2..])
    else WellFormed(pattern[1..])
  }

  predicate Like(text: string, pattern: string)
    decreases |pattern|, |text|
  {
    if pattern == [] then text == []
    else if pattern[0] == '%' then Like(text, pattern[1..]) || (text != [] && Like(text[1..], pattern))
    else if pattern[0] == '_' then text != [] && Like(text[1..], pattern[1..])
    else if pattern[0] == '\\' then
      |pattern| >= 2 && text != [] && text[0] == pattern[1] && Like(text[1..], pattern[2..])
    else text != [] && text[0] == pattern[0] && Like(text[1..], pattern[1..])
  }

  function Folded(fold: char -> char, s: string): string {
    seq(|s|, i requires 0 <= i < |s| => fold(s[i]))
  }

  /** ILIKE folds the case of both sides, character by character, and matches with LIKE. */
  predicate ILike(text: string, pattern: string, fold: char -> char) {
    Like(Folded(fold, text), Folded(fold, pattern))
  }

  /** Case folding leaves the metacharacters alone and produces no new ones. */
  ghost predicate LeavesMetaAlone(fold: char -> char) {
    forall c: char :: (IsMeta(c) ==> fold(c) == c) && (IsMeta(fold(c)) ==> IsMeta(c))
  }

  ghost predicate OccursIn(p: string, t: string) {
    exists k :: 0 <= k <= |t| && p <= t[k..]
  }

  function Containing(p: string): string {
    "%" + Escape(p) + "%"
  }

  lemma {:induction false} EscapedTextIsLiteral(t: string, p: string, rest: string)
    ensures Like(t, Escape(p) + rest) <==> p <= t && Like(t[|p|..], rest)
  {
    if p == [] {
      assert Escape(p) + rest == rest && t[0..] == t;
    } else {
      var here := if IsMeta(p[0]) then ['\\', p[0]] else [p[0]];
      assert Escape(p) + rest == here + (Escape(p[1..]) + rest);
      assert (here + (Escape(p[1..]) + rest))[|here|..] == Escape(p[1..]) + rest;
      if t != [] {
        EscapedTextIsLiteral(t[1..], p[1..], rest);
        assert p == [p[0]] + p[1..] && t == [t[0]] + t[1..];
        assert |p| <= |t| ==> t[1..][|p| - 1..] == t[|p|..];
      }
    }
  }

  lemma {:induction false} PercentMatchesAnything(t: string)
    ensures Like(t, "%")
  {
    if t != [] {
      PercentMatchesAnything(t[1..]);
    }
  }

  lemma {:induction false} LeadingPercentSkips(t: string, rest: string)
    ensures Like(t, "%" + rest) <==> exists k :: 0 <= k <= |t| && Like(t[k..], rest)
  {
    assert ("%" + rest)[1..] == rest && t[0..] == t;
    if t != [] {
      LeadingPercentSkips(t[1..], rest);
      if Like(t[1..], "%" + rest) {
        var k :| 0 <= k <= |t| - 1 && Like(t[1..][k..], rest);
        assert t[1..][k..] == t[k + 1..];
      }
      if k :| 0 < k <= |t| && Like(t[k..], rest) {
        assert t[k..] == t[1..][k - 1..];
      }
    }
  }

  /** Whatever the user typed, the pattern is legal and matches exactly the titles that contain it. */
  lemma EscapedPatternMeansContains(p: string, t: string)
    ensures Like(t, Containing(p)) <==> OccursIn(p, t)
  {
    var rest := Escape(p) + "%";
    assert Containing(p) == "%" + rest;
    LeadingPercentSkips(t, rest);
    forall k | 0 <= k <= |t| ensures Like(t[k..], rest) <==> p <= t[k..] {
      EscapedTextIsLiteral(t[k..], p, "%");
      if p <= t[k..] {
        PercentMatchesAnything(t[k..][|p|..]);
      }
    }
  }

  lemma {:induction false} EscapedIsWellFormed(p: string, rest: string)
    requires WellFormed(rest)
    ensures WellFormed(Escape(p) + rest)
  {
    if p == [] {
      assert Escape(p) + rest == rest;
    } else {
      EscapedIsWellFormed(p[1..], rest);
      var here := if IsMeta(p[0]) then ['\\', p[0]] else [p[0]];
      assert Escape(p) + rest == here + (Escape(p[1..]) + rest);
      assert (here + (Escape(p[1..]) + rest))[|here|..] == Escape(p[1..]) + rest;
    }
  }

  lemma PatternNeverErrs(p: string)
    ensures WellFormed(Containing(p))
  {
    EscapedIsWellFormed(p, "%");
    assert Containing(p)[1..] == Escape(p) + "%";
  }

  lemma {:induction false} FoldingCommutesWithEscaping(fold: char -> char, p: string)
    requires LeavesMetaAlone(fold)
    ensures Folded(fold, Escape(p)) == Escape(Folded(fold, p))
  {
    if p != [] {
      FoldingCommutesWithEscaping(fold, p[1..]);
      assert Folded(fold, p) == [fold(p[0])] + Folded(fold, p[1..]);
      assert Folded(fold, p)[1..] == Folded(fold, p[1..]);
      var here := if IsMeta(p[0]) then ['\\', p[0]] else [p[0]];
      assert IsMeta('\\');
      assert Folded(fold, here + Escape(p[1..])) == Folded(fold, here) + Folded(fold, Escape(p[1..]));
      assert Folded(fold, here) == if IsMeta(p[0]) then ['\\', p[0]] else [fold(p[0])];
    }
  }

  /** The same for ILIKE: containment up to case. */
  lemma EscapedPatternMeansContainsIgnoringCase(fold: char -> char, p: string, t: string)
    requires LeavesMetaAlone(fold)
    ensures ILike(t, Containing(p), fold) <==> OccursIn(Folded(fold, p), Folded(fold, t))
  {
    FoldingCommutesWithEscaping(fold, p);
    assert IsMeta('%');
    assert Folded(fold, Containing(p)) == "%" + Folded(fold, Escape(p)) + "%";
    EscapedPatternMeansContains(Folded(fold, p), Folded(fold, t));
  }
}
