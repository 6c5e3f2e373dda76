/**
 * Generic scans over sequences that several modules share: filtering (a SQL
 * `WHERE` clause or a Python list comprehension with a condition) and
 * numbering elements as `enumerate` does, each with the loop that performs it.
 */
module Seqs {

  /** The elements of `xs` that `keep` accepts, in their order (a `WHERE` clause). */
  function Filter<T(!new)>(xs: seq<T>, keep: T -> bool): (r: seq<T>)
    ensures |r| <= |xs|
    ensures forall x :: x in r <==> x in xs && keep(x)
  {
    if xs == [] then []
    else Filter(xs[..|xs| - 1], keep) + (if keep(xs[|xs| - 1]) then [xs[|xs| - 1]] else [])
  }

  /** A scan over `xs` that keeps the rows `keep` accepts: how a `DELETE ... WHERE` leaves a table. */
  method Select<T(!new)>(xs: seq<T>, keep: T -> bool) returns (kept: seq<T>)
    ensures kept == Filter(xs, keep)
  {
    kept := [];
    var i := 0;
    while i < |xs|
      invariant 0 <= i <= |xs|
      invariant kept == Filter(xs[..i], keep)
    {
      FilterStep(xs, i, keep);
      if keep(xs[i]) {
        kept := kept + [xs[i]];
      }
      i := i + 1;
    }
    assert xs[..i] == xs;
  }

  lemma {:induction false} FilterConcat<T(!new)>(a: seq<T>, b: seq<T>, keep: T -> bool)
    ensures Filter(a + b, keep) == Filter(a, keep) + Filter(b, keep)
    decreases |b|
  {
    if b == [] {
      assert a + b == a;
    } else {
      var b' := b[..|b| - 1];
      assert (a + b)[..|a + b| - 1] == a + b';
      FilterConcat(a, b', keep);
    }
  }

  /** `Filter` keeps a prefix's filtered rows and adds the next row's, as a scan does. */
  lemma FilterStep<T(!new)>(xs: seq<T>, i: int, keep: T -> bool)
    requires 0 <= i < |xs|
    ensures Filter(xs[..i + 1], keep) == Filter(xs[..i], keep) + (if keep(xs[i]) then [xs[i]] else [])
  {
    assert xs[..i + 1][..i] == xs[..i];
  }

  /**
   * `f(first, xs[0]), f(first + 1, xs[1]), ...` over the first `n` elements:
   * what a loop over `enumerate(xs, start=first)` produces.
   */
  function Numbered<A, T>(f: (int, A) -> T, first: int, xs: seq<A>, n: nat): (r: seq<T>)
    requires n <= |xs|
    ensures |r| == n
  {
    if n == 0 then [] else Numbered(f, first, xs, n - 1) + [f(first + n - 1, xs[n - 1])]
  }

  /** Element `k` is `f` applied to position `first + k` and `xs[k]`. */
  lemma {:induction false} NumberedAt<A, T>(f: (int, A) -> T, first: int, xs: seq<A>, n: nat)
    requires n <= |xs|
    ensures forall k :: 0 <= k < n ==> Numbered(f, first, xs, n)[k] == f(first + k, xs[k])
  {
    if n > 0 {
      NumberedAt(f, first, xs, n - 1);
    }
  }

  /** A `for` loop over `enumerate(xs, start=first)` that appends `f(i, x)` for each element. */
  method Enumerate<A, T>(f: (int, A) -> T, first: int, xs: seq<A>) returns (out: seq<T>)
    ensures out == Numbered(f, first, xs, |xs|)
  {
    out := [];
    var i := 0;
    while i < |xs|
      invariant 0 <= i <= |xs|
      invariant out == Numbered(f, first, xs, i)
    {
      out := out + [f(first + i, xs[i])];
      i := i + 1;
    }
  }
}
