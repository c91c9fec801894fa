/** Optional values and the filter-map shape shared by the change aggregators. */
module Wrappers {

  /** A value that may be absent; stands for a nullable reference. */
  datatype Option<+T> = None | Some(value: T)

  /** A value or an error; stands for a call that may throw. */
  datatype Result<+R, +E> = Success(value: R) | Failure(error: E)

  /** Maps every element through `f` and keeps the present results, in order.
      This is the shape of a `foreach` that appends a result or `continue`s. */
  function FilterMap<T, U>(xs: seq<T>, f: T -> Option<U>): (r: seq<U>)
    ensures |r| <= |xs|
  {
    if xs == [] then []
    else
      var rest := FilterMap(xs[..|xs| - 1], f);
      match f(xs[|xs| - 1])
      case Some(u) => rest + [u]
      case None => rest
  }

  /** One more input element adds its present result, if any, at the end. */
  lemma FilterMapPrefix<T, U>(xs: seq<T>, i: nat, f: T -> Option<U>)
    requires i < |xs|
    ensures FilterMap(xs[..i + 1], f) == FilterMap(xs[..i], f) + (if f(xs[i]).Some? then [f(xs[i]).value] else [])
  {
    assert xs[..i + 1][..i] == xs[..i];
  }

  /** Filter-map distributes over concatenation: the output keeps input order. */
  lemma {:induction false} FilterMapAppend<T, U>(a: seq<T>, b: seq<T>, f: T -> Option<U>)
    ensures FilterMap(a + b, f) == FilterMap(a, f) + FilterMap(b, f)
    decreases |b|
  {
    if b == [] {
      assert a + b == a;
    } else {
      var b' := b[..|b| - 1];
      assert (a + b)[..|a + b| - 1] == a + b';
      assert (a + b)[|a + b| - 1] == b[|b| - 1];
      FilterMapAppend(a, b', f);
    }
  }

  /** Every output element is the result of some input element, and every
      present result of an input element is in the output. */
  lemma {:induction false} FilterMapMembership<T, U>(xs: seq<T>, f: T -> Option<U>, u: U)
    ensures u in FilterMap(xs, f) <==> exists k :: 0 <= k < |xs| && f(xs[k]) == Some(u)
  {
    if xs != [] {
      var init := xs[..|xs| - 1];
      FilterMapMembership(init, f, u);
      if u in FilterMap(xs, f) && !(u in FilterMap(init, f)) {
        assert f(xs[|xs| - 1]) == Some(u);
      }
      if exists k :: 0 <= k < |xs| && f(xs[k]) == Some(u) {
        var k :| 0 <= k < |xs| && f(xs[k]) == Some(u);
        if k < |xs| - 1 {
          assert init[k] == xs[k];
        }
      }
    }
  }
}
