/** Sorting a set by a strict order of its elements. */
module Sorting {

  /** `before` orders the elements of `s` strictly and totally. */
  predicate Orders<T(!new)>(before: (T, T) -> bool, s: set<T>) {
    && (forall a, b :: a in s && b in s ==> a == b || before(a, b) || before(b, a))
    && forall a, b, c :: a in s && b in s && c in s && before(a, b) && before(b, c) ==> before(a, c)
  }

  predicate SortedBy<T>(xs: seq<T>, before: (T, T) -> bool) {
    forall i, j :: 0 <= i < j < |xs| ==> before(xs[i], xs[j])
  }

  lemma PutFirst<T>(x: T, rest: seq<T>, before: (T, T) -> bool)
    requires SortedBy(rest, before) && forall y :: y in rest ==> before(x, y)
    ensures SortedBy([x] + rest, before)
  {
  }

  function Insert<T(!new)>(xs: seq<T>, x: T, before: (T, T) -> bool, ghost s: set<T>): (r: seq<T>)
    requires Orders(before, s) && x in s && x !in xs && forall y :: y in xs ==> y in s
    requires SortedBy(xs, before)
    ensures SortedBy(r, before) && forall y :: y in r <==> y == x || y in xs
  {
    if xs == [] then [x]
    else if before(x, xs[0]) then
      assert forall y :: y in xs ==> before(x, y);
      PutFirst(x, xs, before);
      [x] + xs
    else
      var rest := Insert(xs[1..], x, before, s);
      assert before(xs[0], x) && forall y :: y in xs[1..] ==> before(xs[0], y);
      PutFirst(xs[0], rest, before);
      assert xs == [xs[0]] + xs[1..];
      [xs[0]] + rest
  }

  method Sort<T(!new)>(s: set<T>, before: (T, T) -> bool) returns (xs: seq<T>)
    requires Orders(before, s)
    ensures SortedBy(xs, before) && forall x :: x in xs <==> x in s
  {
    xs := [];
    var rest := s;
    while exists x :: x in rest
      invariant rest <= s && SortedBy(xs, before)
      invariant forall x :: x in xs <==> x in s && x !in rest
      decreases rest
    {
      var x :| x in rest;
      rest := rest - {x};
      xs := Insert(xs, x, before, s);
    }
  }
}
