/** Failure-carrying datatypes shared by every component of the model. */
module Basics {

  datatype Option<+T> = None | Some(value: T)

  datatype Result<+T, +E> = Ok(value: T) | Err(error: E)

  function Min(a: int, b: int): int {
    if a < b then a else b
  }

  function Max(a: int, b: int): int {
    if a < b then b else a
  }

  lemma SubsetIsNoLarger<T>(small: set<T>, big: set<T>)
    requires small <= big
    ensures |small| <= |big|
  {
    assert big == small + (big - small);
  }

  /** An injective image is as large as its source, so an image never outgrows it. */
  lemma {:induction false} ImageIsNoLarger<S, T>(source: set<S>, f: S -> T, image: set<T>)
    requires forall y | y in image :: exists x :: x in source && f(x) == y
    ensures |image| <= |source|
  {
    if source == {} {
      assert forall y :: y !in image;
      assert image == {};
    } else {
      var x :| x in source;
      forall y | y in image - {f(x)} ensures exists x' :: x' in source - {x} && f(x') == y {
        var x' :| x' in source && f(x') == y;
        assert x' in source - {x};
      }
      ImageIsNoLarger(source - {x}, f, image - {f(x)});
      assert |image| <= |image - {f(x)}| + 1 by {
        if f(x) in image {
          assert image == (image - {f(x)}) + {f(x)};
        } else {
          assert image - {f(x)} == image;
        }
      }
    }
  }
}
