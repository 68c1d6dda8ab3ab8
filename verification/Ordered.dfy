/** Walking a finite set in the order of its elements, as an ordered map does. */
module Ordered {

  ghost predicate TotalOrder<T(!new)>(le: (T, T) -> bool) {
    && (forall x, y :: le(x, y) || le(y, x))
    && (forall x, y :: le(x, y) && le(y, x) ==> x == y)
    && (forall x, y, z :: le(x, y) && le(y, z) ==> le(x, z))
  }

  lemma {:induction false} LeastExists<T(!new)>(le: (T, T) -> bool, s: set<T>) returns (m: T)
    requires TotalOrder(le) && s != {}
    ensures m in s && forall y :: y in s ==> le(m, y)
    decreases |s|
  {
    var x :| x in s;
    var rest := s - {x};
    if rest == {} {
      m := x;
      forall y | y in s ensures le(x, y) { assert y == x || y in rest; assert le(x, x); }
    } else {
      var l := LeastExists(le, rest);
      m := if le(x, l) then x else l;
      forall y | y in s ensures le(m, y) {
        if y == x { assert le(x, x) && (le(x, l) || le(l, x)); } else { assert le(l, y); }
      }
    }
  }

  ghost function Least<T(!new)>(le: (T, T) -> bool, s: set<T>): T
    requires TotalOrder(le) && s != {}
  {
    assert exists x :: x in s && forall y :: y in s ==> le(x, y) by { var m := LeastExists(le, s); }
    var x :| x in s && forall y :: y in s ==> le(x, y);
    x
  }

  ghost function Ascending<T(!new)>(le: (T, T) -> bool, s: set<T>): seq<T>
    requires TotalOrder(le)
    decreases |s|
  {
    if s == {} then [] else [Least(le, s)] + Ascending(le, s - {Least(le, s)})
  }

  lemma {:induction false} AscendingMembers<T(!new)>(le: (T, T) -> bool, s: set<T>)
    requires TotalOrder(le)
    ensures forall x :: x in Ascending(le, s) <==> x in s
    ensures forall i, j :: 0 <= i < j < |Ascending(le, s)| ==> Ascending(le, s)[i] != Ascending(le, s)[j]
    decreases |s|
  {
    if s != {} { AscendingMembers(le, s - {Least(le, s)}); }
  }

  lemma {:induction false} AscendingAscends<T(!new)>(le: (T, T) -> bool, s: set<T>)
    requires TotalOrder(le)
    ensures forall i, j :: 0 <= i < j < |Ascending(le, s)| ==> le(Ascending(le, s)[i], Ascending(le, s)[j])
    decreases |s|
  {
    if s != {} {
      var rest := s - {Least(le, s)};
      AscendingAscends(le, rest);
      AscendingMembers(le, rest);
      assert forall i :: 0 <= i < |Ascending(le, rest)| ==> Ascending(le, rest)[i] in rest;
    }
  }

  lemma LeastComesFirst<T(!new)>(le: (T, T) -> bool, s: set<T>, m: T)
    requires TotalOrder(le) && m in s && forall y :: y in s ==> le(m, y)
    ensures Ascending(le, s) == [m] + Ascending(le, s - {m})
  {
    assert le(m, Least(le, s)) && le(Least(le, s), m);
  }

  /** List a set in ascending order, as a walk over the keys of an ordered map. */
  method Walk<T(!new, ==)>(le: (T, T) -> bool, s: set<T>) returns (r: seq<T>)
    requires TotalOrder(le)
    ensures r == Ascending(le, s)
  {
    r := [];
    var left := s;
    while left != {}
      invariant Ascending(le, s) == r + Ascending(le, left)
      decreases |left|
    {
      assert exists m :: m in left && forall y :: y in left ==> le(m, y) by { var m := LeastExists(le, left); }
      var m :| m in left && forall y :: y in left ==> le(m, y);
      LeastComesFirst(le, left, m);
      r := r + [m];
      left := left - {m};
    }
  }
}
