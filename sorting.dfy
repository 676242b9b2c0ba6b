/** `orderBy` of a query: the rows of a table, given as a set of keys, listed
    in the order of a comparison `le` that is a total order on those keys. */
module Sorting {

  ghost predicate TotalOrderOn<T>(s: set<T>, le: (T, T) -> bool) {
    && (forall a :: a in s ==> le(a, a))
    && (forall a, b :: a in s && b in s && le(a, b) && le(b, a) ==> a == b)
    && (forall a, b, c :: a in s && b in s && c in s && le(a, b) && le(b, c) ==> le(a, c))
    && (forall a, b :: a in s && b in s ==> le(a, b) || le(b, a))
  }

  ghost predicate IsLeast<T>(s: set<T>, le: (T, T) -> bool, m: T) {
    m in s && forall y :: y in s ==> le(m, y)
  }

  lemma {:induction false} LeastExists<T>(s: set<T>, le: (T, T) -> bool)
    requires s != {} && TotalOrderOn(s, le)
    ensures exists m :: IsLeast(s, le, m)
    decreases |s|
  {
    var x :| x in s;
    if s == {x} {
      assert IsLeast(s, le, x);
    } else {
      var rest := s - {x};
      LeastExists(rest, le);
      var m :| IsLeast(rest, le, m);
      if le(x, m) {
        assert IsLeast(s, le, x);
      } else {
        assert IsLeast(s, le, m);
      }
    }
  }

  /** The first row in the order; unique because the order is antisymmetric. */
  function Least<T(==)>(s: set<T>, le: (T, T) -> bool): (m: T)
    requires s != {} && TotalOrderOn(s, le)
    ensures m in s && forall y :: y in s ==> le(m, y)
  {
    LeastExists(s, le);
    var m :| m in s && forall y :: y in s ==> le(m, y);
    m
  }

  /** The keys of `s` in ascending `le` order: each exactly once, nothing else. */
  function SortBy<T(==)>(s: set<T>, le: (T, T) -> bool): (r: seq<T>)
    requires TotalOrderOn(s, le)
    ensures |r| == |s|
    ensures forall i :: 0 <= i < |r| ==> r[i] in s
    ensures forall x :: x in s ==> x in r
    ensures forall i, j :: 0 <= i < j < |r| ==> r[i] != r[j]
    ensures forall i, j :: 0 <= i < j < |r| ==> le(r[i], r[j])
    decreases |s|
  {
    if s == {} then []
    else
      var m := Least(s, le);
      [m] + SortBy(s - {m}, le)
  }
}
