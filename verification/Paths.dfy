/** Slash-separated paths, and the lexical cleaning path.Clean and filepath.Clean do. */
module Paths {

  /** The pieces between slashes; a string without a slash is one piece. */
  function Split(s: string): (pieces: seq<string>)
    ensures |pieces| >= 1
  {
    if s == "" then [""]
    else
      var rest := Split(s[1..]);
      if s[0] == '/' then [""] + rest else [[s[0]] + rest[0]] + rest[1..]
  }

  function Join(pieces: seq<string>): string
    requires |pieces| >= 1
  {
    if |pieces| == 1 then pieces[0] else pieces[0] + "/" + Join(pieces[1..])
  }

  /** strings.Cut(s, "/"): what precedes the first slash, and what follows it. */
  function Area(s: string): string {
    if s == "" || s[0] == '/' then "" else [s[0]] + Area(s[1..])
  }

  function Rest(s: string): string {
    if s == "" then "" else if s[0] == '/' then s[1..] else Rest(s[1..])
  }

  lemma {:induction false} SplitJoins(s: string)
    ensures Join(Split(s)) == s
  {
    if s != "" {
      SplitJoins(s[1..]);
      var rest := Split(s[1..]);
      if s[0] == '/' {
        assert ([""] + rest)[1..] == rest;
        assert s == "" + "/" + s[1..];
      } else {
        assert s == [s[0]] + s[1..];
        if |rest| > 1 {
          assert Join(rest) == rest[0] + "/" + Join(rest[1..]);
          assert [s[0]] + (rest[0] + "/" + Join(rest[1..])) == ([s[0]] + rest[0]) + "/" + Join(rest[1..]);
        }
      }
    }
  }

  /** How a first character goes into the three functions. */
  lemma FirstCharacter(c: char, s: string)
    ensures Split([c] + s) == if c == '/' then [""] + Split(s) else [[c] + Split(s)[0]] + Split(s)[1..]
    ensures Area([c] + s) == if c == '/' then "" else [c] + Area(s)
    ensures Rest([c] + s) == if c == '/' then s else Rest(s)
  {
    assert ([c] + s)[1..] == s;
  }

  lemma {:induction false} SplitAppends(a: string, b: string)
    ensures Split(a + "/" + b) == Split(a) + Split(b)
  {
    if a == "" {
      FirstCharacter('/', b);
      assert a + "/" + b == "/" + b;
    } else {
      SplitAppends(a[1..], b);
      FirstCharacter(a[0], a[1..] + "/" + b);
      FirstCharacter(a[0], a[1..]);
      assert a == [a[0]] + a[1..];
      assert a + "/" + b == [a[0]] + (a[1..] + "/" + b);
      SplitHeads(a[0], Split(a[1..]), Split(b));
    }
  }

  lemma SplitHeads(c: char, p: seq<string>, q: seq<string>)
    requires |p| >= 1
    ensures [[c] + (p + q)[0]] + (p + q)[1..] == ([[c] + p[0]] + p[1..]) + q
    ensures [""] + (p + q) == ([""] + p) + q
  {
  }

  lemma SlashIn(c: char, t: string)
    ensures '/' in [c] + t <==> c == '/' || '/' in t
  {
  }

  lemma CutPartsStep(c: char, t: string)
    requires '/' in t ==> t == Area(t) + "/" + Rest(t)
    requires '/' !in t ==> Area(t) == t && Rest(t) == ""
    requires '/' !in Area(t)
    ensures '/' in [c] + t ==> [c] + t == Area([c] + t) + "/" + Rest([c] + t)
    ensures '/' !in [c] + t ==> Area([c] + t) == [c] + t && Rest([c] + t) == ""
    ensures '/' !in Area([c] + t)
  {
    FirstCharacter(c, t);
    SlashIn(c, t);
    SlashIn(c, Area(t));
    FirstOfCut(c, Area(t), Rest(t));
  }

  lemma FirstOfCut(c: char, area: string, rest: string)
    ensures [c] + (area + "/" + rest) == ([c] + area) + "/" + rest
    ensures "" + "/" + rest == ['/'] + rest
  {
  }

  lemma {:induction false} CutParts(s: string)
    ensures '/' in s ==> s == Area(s) + "/" + Rest(s)
    ensures '/' !in s ==> Area(s) == s && Rest(s) == ""
    ensures '/' !in Area(s)
  {
    if s != "" {
      CutParts(s[1..]);
      CutPartsStep(s[0], s[1..]);
      assert s == [s[0]] + s[1..];
    }
  }

  lemma {:induction false} SplitOfOnePiece(s: string)
    requires '/' !in s
    ensures Split(s) == [s]
  {
    if s != "" {
      assert s == [s[0]] + s[1..];
      FirstCharacter(s[0], s[1..]);
      SplitOfOnePiece(s[1..]);
    }
  }

  lemma CutSplits(s: string)
    ensures Split(s) == if '/' in s then [Area(s)] + Split(Rest(s)) else [s]
    ensures '/' in s ==> s == Area(s) + "/" + Rest(s)
    ensures '/' !in s ==> Area(s) == s && Rest(s) == ""
    ensures '/' !in Area(s)
  {
    CutParts(s);
    if '/' in s {
      SplitAppends(Area(s), Rest(s));
      SplitOfOnePiece(Area(s));
    } else {
      SplitOfOnePiece(s);
    }
  }

  /** A cleaned path: absolute or relative, and its segments. */
  datatype Path = Path(rooted: bool, segments: seq<string>)

  function Push(rooted: bool, stack: seq<string>, segment: string): seq<string> {
    if segment == "" || segment == "." then stack
    else if segment != ".." then stack + [segment]
    else if stack != [] && stack[|stack| - 1] != ".." then stack[..|stack| - 1]
    else if rooted then stack
    else stack + [".."]
  }

  function PushAll(rooted: bool, stack: seq<string>, segments: seq<string>): seq<string>
    decreases |segments|
  {
    if segments == [] then stack else PushAll(rooted, Push(rooted, stack, segments[0]), segments[1..])
  }

  function Clean(s: string): Path {
    var rooted := s != "" && s[0] == '/';
    Path(rooted, PushAll(rooted, [], Split(s)))
  }

  /** filepath.Join of two elements; empty elements are ignored. */
  function JoinPaths(dir: string, rest: string): Path {
    if dir == "" then Clean(rest) else if rest == "" then Clean(dir) else Clean(dir + "/" + rest)
  }

  /** The segments that name something. */
  function Kept(segments: seq<string>): seq<string> {
    if segments == [] then []
    else
      var rest := Kept(segments[1..]);
      if segments[0] == "" || segments[0] == "." then rest else [segments[0]] + rest
  }

  lemma {:induction false} KeptIsClean(segments: seq<string>)
    ensures forall x :: x in Kept(segments) ==> x in segments && x != "" && x != "."
    ensures (forall x :: x in segments ==> x != "" && x != ".") ==> Kept(segments) == segments
  {
    if segments != [] {
      KeptIsClean(segments[1..]);
      assert segments == [segments[0]] + segments[1..];
      assert segments[0] in segments && forall x :: x in segments[1..] ==> x in segments;
    }
  }

  lemma {:induction false} PushAllAppends(rooted: bool, stack: seq<string>, a: seq<string>, b: seq<string>)
    ensures PushAll(rooted, stack, a + b) == PushAll(rooted, PushAll(rooted, stack, a), b)
    decreases |a|
  {
    if a == [] {
      assert a + b == b;
    } else {
      assert (a + b)[0] == a[0] && (a + b)[1..] == a[1..] + b;
      PushAllAppends(rooted, Push(rooted, stack, a[0]), a[1..], b);
    }
  }

  /** Without "..", cleaning only ever appends to what is already there. */
  lemma {:induction false} PushAllWithoutDotDot(rooted: bool, stack: seq<string>, segments: seq<string>)
    requires ".." !in segments
    ensures PushAll(rooted, stack, segments) == stack + Kept(segments)
    decreases |segments|
  {
    if segments != [] {
      PushAllWithoutDotDot(rooted, Push(rooted, stack, segments[0]), segments[1..]);
    } else {
      assert stack + [] == stack;
    }
  }

  /** Joining a name without ".." to a directory yields a path below that directory. */
  lemma JoinExtends(dir: string, rest: string)
    requires dir != "" && ".." !in Split(rest)
    ensures JoinPaths(dir, rest) == Path(Clean(dir).rooted, Clean(dir).segments + Kept(Split(rest)))
  {
    var rooted := dir[0] == '/';
    if rest == "" {
      assert Kept([""]) == [];
      assert Clean(dir).segments + [] == Clean(dir).segments;
    } else {
      SplitAppends(dir, rest);
      assert (dir + "/" + rest)[0] == dir[0];
      PushAllAppends(rooted, [], Split(dir), Split(rest));
      PushAllWithoutDotDot(rooted, PushAll(rooted, [], Split(dir)), Split(rest));
    }
  }

  lemma {:induction false} JoinAppends(a: seq<string>, b: seq<string>)
    requires |a| >= 1 && |b| >= 1
    ensures Join(a + b) == Join(a) + "/" + Join(b)
  {
    if |a| == 1 {
      assert (a + b)[1..] == b;
    } else {
      JoinAppends(a[1..], b);
      assert (a + b)[1..] == a[1..] + b;
      SlashAssociates(a[0], Join(a[1..]), Join(b));
    }
  }

  lemma SlashAssociates(x: string, y: string, z: string)
    ensures x + "/" + (y + "/" + z) == (x + "/" + y) + "/" + z
  {
  }

  /** A string begins with `p/` exactly when its pieces properly extend p's pieces. */
  lemma PrefixWithSlash(p: string, s: string)
    ensures p + "/" <= s <==> Split(p) < Split(s)
  {
    if p + "/" <= s {
      assert s == p + "/" + s[|p| + 1..];
      SplitAppends(p, s[|p| + 1..]);
    }
    if Split(p) < Split(s) {
      var more := Split(s)[|Split(p)|..];
      assert Split(s) == Split(p) + more;
      JoinAppends(Split(p), more);
      SplitJoins(p);
      SplitJoins(s);
    }
  }

  lemma SplitInjective(a: string, b: string)
    ensures Split(a) == Split(b) ==> a == b
  {
    SplitJoins(a);
    SplitJoins(b);
  }
}
