/** ORDER BY: the elements of a set, listed in the order of a comparison. */
module Ordering {

  /** `before` is a strict total order. */
  ghost predicate Compares<T(!new)>(before: (T, T) -> bool) {
    && (forall a, b :: before(a, b) ==> !before(b, a))
    && (forall a, b :: a != b ==> before(a, b) || before(b, a))
    && (forall a, b, c :: before(a, b) && before(b, c) ==> before(a, c))
  }

  ghost predicate Ordered<T>(s: seq<T>, before: (T, T) -> bool) {
    forall i, j :: 0 <= i < j < |s| ==> before(s[i], s[j])
  }

  predicate IsFirst<T(==)>(m: T, s: set<T>, before: (T, T) -> bool) {
    m in s && forall x :: x in s ==> x == m || before(m, x)
  }

  lemma {:induction false} FirstExists<T(!new)>(s: set<T>, before: (T, T) -> bool) returns (m: T)
    requires Compares(before) && s != {}
    ensures IsFirst(m, s, before)
    decreases s
  {
    var y :| y in s;
    var rest := s - {y};
    assert forall x :: x in s <==> x == y || x in rest;
    m := y;
    if rest != {} {
      var n := FirstExists(rest, before);
      m := if before(n, y) then n else y;
    }
  }

  lemma SomeFirst<T(!new)>(s: set<T>, before: (T, T) -> bool)
    requires Compares(before) && s != {}
    ensures exists m :: IsFirst(m, s, before)
  {
    var m := FirstExists(s, before);
  }

  function First<T(==, !new)>(s: set<T>, before: (T, T) -> bool): (m: T)
    requires Compares(before) && s != {}
    ensures IsFirst(m, s, before)
  {
    SomeFirst(s, before);
    var m :| IsFirst(m, s, before);
    m
  }

  function Sorted<T(==, !new)>(s: set<T>, before: (T, T) -> bool): (r: seq<T>)
    requires Compares(before)
    ensures Ordered(r, before) && |r| == |s|
    ensures forall x :: x in r <==> x in s
  {
    if s == {} then []
    else
      var m := First(s, before);
      [m] + Sorted(s - {m}, before)
  }
}
