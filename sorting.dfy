/**
 * Ordering of query results (`ORDER BY`): insertion into a list sorted by a total preorder, used for
 * the step list and the check-in list of db.py.
 */
module Sorting {

  ghost predicate Total<T(!new)>(le: (T, T) -> bool)
  {
    forall a, b :: le(a, b) || le(b, a)
  }

  ghost predicate Transitive<T(!new)>(le: (T, T) -> bool)
  {
    forall a, b, c :: le(a, b) && le(b, c) ==> le(a, c)
  }

  ghost predicate SortedBy<T>(xs: seq<T>, le: (T, T) -> bool)
  {
    forall i, j :: 0 <= i < j < |xs| ==> le(xs[i], xs[j])
  }

  /** Places `x` after every element of the sorted `xs` that does not follow it. */
  function Insert<T(!new)>(x: T, xs: seq<T>, le: (T, T) -> bool): (r: seq<T>)
    requires Total(le) && Transitive(le) && SortedBy(xs, le)
    ensures SortedBy(r, le)
    ensures multiset(r) == multiset(xs) + multiset{x}
  {
    if xs == [] then [x]
    else if le(xs[0], x) then
      var rest := Insert(x, xs[1..], le);
      assert xs == [xs[0]] + xs[1..];
      InsertHead(x, xs, rest, le);
      [xs[0]] + rest
    else
      assert xs == [xs[0]] + xs[1..];
      InsertFront(x, xs, le);
      [x] + xs
  }

  lemma InsertHead<T(!new)>(x: T, xs: seq<T>, rest: seq<T>, le: (T, T) -> bool)
    requires xs != [] && le(xs[0], x) && SortedBy(xs, le) && SortedBy(rest, le)
    requires multiset(rest) == multiset(xs[1..]) + multiset{x}
    ensures SortedBy([xs[0]] + rest, le)
  {
    var r := [xs[0]] + rest;
    forall i, j | 0 <= i < j < |r| ensures le(r[i], r[j]) {
      if i > 0 {
        assert r[i] == rest[i - 1] && r[j] == rest[j - 1];
      } else {
        var y := rest[j - 1];
        assert y in multiset(rest);
        if y != x {
          assert y in multiset(xs[1..]);
          var k :| 0 <= k < |xs[1..]| && xs[1..][k] == y;
          assert xs[k + 1] == y;
        }
      }
    }
  }

  lemma InsertFront<T(!new)>(x: T, xs: seq<T>, le: (T, T) -> bool)
    requires xs != [] && !le(xs[0], x) && Total(le) && Transitive(le) && SortedBy(xs, le)
    ensures SortedBy([x] + xs, le)
  {
    var r := [x] + xs;
    assert le(x, xs[0]);
    forall i, j | 0 <= i < j < |r| ensures le(r[i], r[j]) {
      if i > 0 {
        assert r[i] == xs[i - 1] && r[j] == xs[j - 1];
      } else if j > 1 {
        assert le(xs[0], xs[j - 1]);
      }
    }
  }

  ghost predicate Distinct<T>(xs: seq<T>)
  {
    forall i, j :: 0 <= i < j < |xs| ==> xs[i] != xs[j]
  }

  lemma {:induction false} DistinctOnce<T>(xs: seq<T>, v: T)
    requires Distinct(xs)
    ensures multiset(xs)[v] <= 1
    ensures v !in xs ==> multiset(xs)[v] == 0
    decreases |xs|
  {
    if xs != [] {
      var init := xs[..|xs| - 1];
      assert xs == init + [xs[|xs| - 1]];
      DistinctOnce(init, v);
      if v == xs[|xs| - 1] {
        assert v !in init;
      }
    }
  }

  lemma TwiceTwo<T>(xs: seq<T>, i: int, j: int)
    requires 0 <= i < j < |xs| && xs[i] == xs[j]
    ensures multiset(xs)[xs[i]] >= 2
  {
    var a, b, c := xs[..i], xs[i..j], xs[j..];
    assert xs == a + b + c;
    assert b[0] == xs[i] && c[0] == xs[i];
    assert multiset(b)[xs[i]] >= 1 && multiset(c)[xs[i]] >= 1;
  }

  /** Adding a new element to a list without repeats, in any arrangement, leaves no repeats. */
  lemma AddFresh<T>(x: T, xs: seq<T>, r: seq<T>)
    requires Distinct(xs) && x !in xs && multiset(r) == multiset(xs) + multiset{x}
    ensures Distinct(r)
  {
    forall i, j | 0 <= i < j < |r| ensures r[i] != r[j] {
      if r[i] == r[j] {
        TwiceTwo(r, i, j);
        DistinctOnce(xs, r[i]);
        assert false;
      }
    }
  }
}
