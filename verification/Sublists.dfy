/** In-order selections from a sequence. */
module Sublists {

  function Filtered<T>(xs: seq<T>, keep: T -> bool): seq<T> {
    if xs == [] then []
    else
      var before := Filtered(xs[..|xs| - 1], keep);
      if keep(xs[|xs| - 1]) then before + [xs[|xs| - 1]] else before
  }

  /** Some elements of `whole`, in the order they have there. */
  predicate IsSublist<T(==)>(part: seq<T>, whole: seq<T>) {
    if part == [] then true
    else if whole == [] then false
    else
      || IsSublist(part, whole[..|whole| - 1])
      || (part[|part| - 1] == whole[|whole| - 1] && IsSublist(part[..|part| - 1], whole[..|whole| - 1]))
  }

  /** The same selection with an element more in front, taken or left. */
  lemma {:induction false} SublistPrepends<T>(x: T, part: seq<T>, whole: seq<T>)
    requires IsSublist(part, whole)
    ensures IsSublist([x] + part, [x] + whole) && IsSublist(part, [x] + whole)
    decreases |whole|
  {
    var all := [x] + whole;
    if whole == [] {
      assert all[..0] == [] && [x][..0] == [];
    } else {
      assert all[..|all| - 1] == [x] + whole[..|whole| - 1];
      if IsSublist(part, whole[..|whole| - 1]) {
        SublistPrepends(x, part, whole[..|whole| - 1]);
      } else if part != [] {
        SublistPrepends(x, part[..|part| - 1], whole[..|whole| - 1]);
        assert ([x] + part)[..|part|] == [x] + part[..|part| - 1];
      }
    }
  }

  lemma FilteredOnce<T>(xs: seq<T>, i: nat, keep: T -> bool)
    requires i < |xs|
    ensures Filtered(xs[..i + 1], keep) == Filtered(xs[..i], keep) + if keep(xs[i]) then [xs[i]] else []
  {
    assert xs[..i + 1][..i] == xs[..i];
  }

  /** Exactly the elements kept, in order. */
  lemma {:induction false} FilteredSelects<T>(xs: seq<T>, keep: T -> bool)
    ensures IsSublist(Filtered(xs, keep), xs)
    ensures forall x :: x in Filtered(xs, keep) <==> x in xs && keep(x)
  {
    if xs != [] {
      var before := xs[..|xs| - 1];
      FilteredSelects(before, keep);
      var kept := Filtered(xs, keep);
      if keep(xs[|xs| - 1]) {
        assert kept[..|kept| - 1] == Filtered(before, keep);
      }
      assert xs == before + [xs[|xs| - 1]];
    }
  }

  lemma {:induction false} SublistOfSublist<T>(a: seq<T>, b: seq<T>, c: seq<T>)
    requires IsSublist(a, b) && IsSublist(b, c)
    ensures IsSublist(a, c)
    decreases |b| + |c|
  {
    if a != [] {
      var b', c' := b[..|b| - 1], c[..|c| - 1];
      if IsSublist(b, c') {
        SublistOfSublist(a, b, c');
      } else if IsSublist(a, b') {
        SublistOfSublist(a, b', c');
      } else {
        SublistOfSublist(a[..|a| - 1], b', c');
      }
    }
  }
}
