/** Shared vocabulary: optional values, the order Rust gives strings, and a
    stable sort with the facts every caller needs about it. */
module Basics {

  datatype Option<+T> = None | Some(value: T)

  /** Lexicographic order on strings; one `char` stands for one UTF-8 byte. */
  predicate StrLe(a: string, b: string) {
    a == [] || (b != [] && (a[0] < b[0] || (a[0] == b[0] && StrLe(a[1..], b[1..]))))
  }

  lemma {:induction false} StrLeTotal(a: string, b: string)
    ensures StrLe(a, b) || StrLe(b, a)
  {
    if a != [] && b != [] && a[0] == b[0] { StrLeTotal(a[1..], b[1..]); }
  }

  lemma {:induction false} StrLeAntisymmetric(a: string, b: string)
    requires StrLe(a, b) && StrLe(b, a)
    ensures a == b
  {
    if a != [] && b != [] {
      StrLeAntisymmetric(a[1..], b[1..]);
      assert a == [a[0]] + a[1..] && b == [b[0]] + b[1..];
    }
  }

  lemma {:induction false} StrLeTransitive(a: string, b: string, c: string)
    requires StrLe(a, b) && StrLe(b, c)
    ensures StrLe(a, c)
  {
    if a != [] && b[0] == a[0] && c[0] == a[0] { StrLeTransitive(a[1..], b[1..], c[1..]); }
  }

  /** One string comes before another when it begins it, or is smaller where they
      first differ. */
  lemma {:induction false} StrLeByFirstDifference(a: string, b: string, k: nat)
    requires k <= |a| && k <= |b| && a[..k] == b[..k]
    ensures k == |a| ==> StrLe(a, b)
    ensures k < |a| && k < |b| && a[k] < b[k] ==> StrLe(a, b) && !StrLe(b, a)
  {
    if k > 0 {
      assert a[0] == a[..k][0] == b[..k][0] == b[0];
      assert a[1..][..k - 1] == a[..k][1..] && b[1..][..k - 1] == b[..k][1..];
      StrLeByFirstDifference(a[1..], b[1..], k - 1);
    }
  }

  // ---- stable sort ----

  function InsertBy<T>(le: (T, T) -> bool, x: T, s: seq<T>): seq<T> {
    if s == [] then [x]
    else if le(x, s[0]) then [x] + s
    else [s[0]] + InsertBy(le, x, s[1..])
  }

  /** Stable: an element stays before every later element it is not above. */
  function SortBy<T>(le: (T, T) -> bool, s: seq<T>): seq<T> {
    if s == [] then [] else InsertBy(le, s[0], SortBy(le, s[1..]))
  }

  ghost predicate SortedBy<T>(le: (T, T) -> bool, s: seq<T>) {
    forall i, j :: 0 <= i < j < |s| ==> le(s[i], s[j])
  }

  lemma {:induction false} InsertKeepsElements<T>(le: (T, T) -> bool, x: T, s: seq<T>)
    ensures multiset(InsertBy(le, x, s)) == multiset(s) + multiset{x}
  {
    if s != [] && !le(x, s[0]) {
      InsertKeepsElements(le, x, s[1..]);
      assert s == [s[0]] + s[1..];
    }
  }

  lemma {:induction false} SortKeepsElements<T>(le: (T, T) -> bool, s: seq<T>)
    ensures multiset(SortBy(le, s)) == multiset(s) && |SortBy(le, s)| == |s|
  {
    if s != [] {
      SortKeepsElements(le, s[1..]);
      InsertKeepsElements(le, s[0], SortBy(le, s[1..]));
      assert s == [s[0]] + s[1..];
      assert |multiset(SortBy(le, s))| == |SortBy(le, s)| && |multiset(s)| == |s|;
    }
  }

  lemma SortMembers<T>(le: (T, T) -> bool, s: seq<T>)
    ensures forall x :: x in SortBy(le, s) <==> x in s
  {
    SortKeepsElements(le, s);
    assert forall x :: x in SortBy(le, s) <==> x in multiset(SortBy(le, s));
    assert forall x :: x in s <==> x in multiset(s);
  }

  /** `le` orders the elements of `s` totally. */
  ghost predicate TotalOn<T>(le: (T, T) -> bool, s: seq<T>) {
    && (forall x, y :: x in s && y in s ==> le(x, y) || le(y, x))
    && (forall x, y, z :: x in s && y in s && z in s && le(x, y) && le(y, z) ==> le(x, z))
  }

  lemma PrependSorts<T>(le: (T, T) -> bool, x: T, s: seq<T>)
    requires SortedBy(le, s) && forall y :: y in s ==> le(x, y)
    ensures SortedBy(le, [x] + s)
  {
    assert forall j :: 0 <= j < |s| ==> s[j] in s;
  }

  lemma FirstIsLeast<T>(le: (T, T) -> bool, s: seq<T>)
    requires s != [] && SortedBy(le, s)
    ensures SortedBy(le, s[1..]) && forall y :: y in s[1..] ==> le(s[0], y)
  {
    forall y | y in s[1..] ensures le(s[0], y) {
      var k :| 0 <= k < |s[1..]| && s[1..][k] == y;
      assert s[k + 1] == y;
    }
  }

  lemma {:induction false} InsertSorts<T>(le: (T, T) -> bool, x: T, s: seq<T>)
    requires SortedBy(le, s) && TotalOn(le, [x] + s)
    ensures SortedBy(le, InsertBy(le, x, s))
  {
    if s != [] {
      assert x in [x] + s && s[0] in [x] + s;
      assert forall y :: y in s ==> y in [x] + s;
      assert forall y :: y in [x] + s[1..] ==> y in [x] + s;
      FirstIsLeast(le, s);
      if le(x, s[0]) {
        PrependSorts(le, x, s);
      } else {
        InsertSorts(le, x, s[1..]);
        InsertKeepsElements(le, x, s[1..]);
        forall y | y in InsertBy(le, x, s[1..]) ensures le(s[0], y) {
          assert y in multiset(InsertBy(le, x, s[1..]));
        }
        PrependSorts(le, s[0], InsertBy(le, x, s[1..]));
      }
    }
  }

  lemma {:induction false} SortSorts<T>(le: (T, T) -> bool, s: seq<T>)
    requires TotalOn(le, s)
    ensures SortedBy(le, SortBy(le, s))
  {
    if s != [] {
      assert forall y :: y in s[1..] ==> y in s;
      SortSorts(le, s[1..]);
      SortKeepsElements(le, s[1..]);
      var r := SortBy(le, s[1..]);
      forall y | y in [s[0]] + r ensures y in s {
        if y != s[0] {
          assert y in multiset(r);
          assert y in s[1..];
        }
      }
      InsertSorts(le, s[0], r);
    }
  }

  /** Drop every element equal to the one before it. */
  function DropRepeats<T(==)>(s: seq<T>): seq<T> {
    if |s| < 2 then s
    else if s[0] == s[1] then DropRepeats(s[1..])
    else [s[0]] + DropRepeats(s[1..])
  }

  lemma {:induction false} DropRepeatsMembers<T>(s: seq<T>)
    ensures forall x :: x in DropRepeats(s) <==> x in s
  {
    if |s| >= 2 {
      DropRepeatsMembers(s[1..]);
      assert s == [s[0]] + s[1..];
    }
  }
}
