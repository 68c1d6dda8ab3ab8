/** Merging the elements of a list that share a key into one, kept where the
    first of them stood. Elements without a key stay as they are. */
module Coalesce {
  import opened Basics

  /** The elements with a key, in order. */
  function With<T, K(==)>(key: T -> Option<K>, s: seq<T>, k: K): seq<T> {
    if s == [] then []
    else if key(s[0]) == Some(k) then [s[0]] + With(key, s[1..], k)
    else With(key, s[1..], k)
  }

  function Without<T, K(==)>(key: T -> Option<K>, s: seq<T>, k: K): (r: seq<T>)
    ensures |r| <= |s|
  {
    if s == [] then []
    else if key(s[0]) == Some(k) then Without(key, s[1..], k)
    else [s[0]] + Without(key, s[1..], k)
  }

  /** Merge a nonempty list from the left. */
  function Fold<T>(merge: (T, T) -> T, s: seq<T>): T
    requires s != []
  {
    if |s| == 1 then s[0] else merge(Fold(merge, s[..|s| - 1]), s[|s| - 1])
  }

  /** What comes first in the result, and what is left to work on. */
  function Head<T, K(==)>(key: T -> Option<K>, merge: (T, T) -> T, s: seq<T>): T
    requires s != []
  {
    if key(s[0]).Some? then Fold(merge, With(key, s, key(s[0]).value)) else s[0]
  }

  function Rest<T, K(==)>(key: T -> Option<K>, s: seq<T>): (r: seq<T>)
    requires s != []
    ensures |r| < |s|
  {
    if key(s[0]).Some? then Without(key, s[1..], key(s[0]).value) else s[1..]
  }

  function Coalesced<T, K(==)>(key: T -> Option<K>, merge: (T, T) -> T, s: seq<T>): seq<T>
    decreases |s|
  {
    if s == [] then [] else [Head(key, merge, s)] + Coalesced(key, merge, Rest(key, s))
  }

  /** The place of a key in the result. */
  function PlaceOf<T, K(==)>(key: T -> Option<K>, s: seq<T>, k: K): nat
    decreases |s|
  {
    if s == [] || key(s[0]) == Some(k) then 0 else 1 + PlaceOf(key, Rest(key, s), k)
  }

  ghost predicate KeepsKey<T(!new), K>(key: T -> Option<K>, merge: (T, T) -> T) {
    forall a, b :: key(a).Some? && key(a) == key(b) ==> key(merge(a, b)) == key(a)
  }

  ghost predicate DistinctKeys<T, K>(key: T -> Option<K>, s: seq<T>) {
    forall i, j :: 0 <= i < j < |s| && key(s[i]).Some? ==> key(s[i]) != key(s[j])
  }

  // ---- how the pieces grow by one element ----

  lemma {:induction false} WithSnoc<T, K>(key: T -> Option<K>, s: seq<T>, x: T, k: K)
    ensures With(key, s + [x], k) == if key(x) == Some(k) then With(key, s, k) + [x] else With(key, s, k)
  {
    if s == [] {
      assert s + [x] == [x];
    } else {
      assert (s + [x])[1..] == s[1..] + [x];
      WithSnoc(key, s[1..], x, k);
    }
  }

  lemma {:induction false} WithoutSnoc<T, K>(key: T -> Option<K>, s: seq<T>, x: T, k: K)
    ensures Without(key, s + [x], k) == if key(x) == Some(k) then Without(key, s, k) else Without(key, s, k) + [x]
  {
    if s == [] {
      assert s + [x] == [x];
    } else {
      assert (s + [x])[1..] == s[1..] + [x];
      WithoutSnoc(key, s[1..], x, k);
    }
  }

  lemma {:induction false} WithOfWithout<T, K>(key: T -> Option<K>, s: seq<T>, k: K, other: K)
    ensures With(key, Without(key, s, k), other) == if k == other then [] else With(key, s, other)
  {
    if s != [] { WithOfWithout(key, s[1..], k, other); }
  }

  lemma {:induction false} WithMembers<T, K>(key: T -> Option<K>, s: seq<T>, k: K)
    ensures forall x :: x in With(key, s, k) <==> x in s && key(x) == Some(k)
  {
    if s != [] { WithMembers(key, s[1..], k); }
  }

  lemma WithOfRest<T, K>(key: T -> Option<K>, s: seq<T>, k: K)
    requires s != []
    ensures With(key, Rest(key, s), k) == if key(s[0]) == Some(k) then [] else With(key, s, k)
  {
    if key(s[0]).Some? { WithOfWithout(key, s[1..], key(s[0]).value, k); }
  }

  lemma RestSnoc<T, K>(key: T -> Option<K>, s: seq<T>, x: T)
    requires s != []
    ensures Rest(key, s + [x]) ==
      if key(s[0]).Some? && key(x) == key(s[0]) then Rest(key, s) else Rest(key, s) + [x]
  {
    assert (s + [x])[1..] == s[1..] + [x];
    if key(s[0]).Some? { WithoutSnoc(key, s[1..], x, key(s[0]).value); }
  }

  lemma HeadSnoc<T, K>(key: T -> Option<K>, merge: (T, T) -> T, s: seq<T>, x: T)
    requires s != [] && !(key(s[0]).Some? && key(x) == key(s[0]))
    ensures Head(key, merge, s + [x]) == Head(key, merge, s)
  {
    if key(s[0]).Some? { WithSnoc(key, s, x, key(s[0]).value); }
  }

  lemma FoldSnoc<T>(merge: (T, T) -> T, s: seq<T>, x: T)
    requires s != []
    ensures Fold(merge, s + [x]) == merge(Fold(merge, s), x)
  {
    assert (s + [x])[..|s|] == s;
  }

  lemma {:induction false} FoldHasKey<T(!new), K>(key: T -> Option<K>, merge: (T, T) -> T, s: seq<T>, k: K)
    requires s != [] && KeepsKey(key, merge) && forall x :: x in s ==> key(x) == Some(k)
    ensures key(Fold(merge, s)) == Some(k)
  {
    if |s| > 1 { FoldHasKey(key, merge, s[..|s| - 1], k); }
  }

  lemma HeadHasKey<T(!new), K>(key: T -> Option<K>, merge: (T, T) -> T, s: seq<T>)
    requires s != [] && KeepsKey(key, merge)
    ensures key(Head(key, merge, s)) == key(s[0])
  {
    if key(s[0]).Some? {
      WithMembers(key, s, key(s[0]).value);
      FoldHasKey(key, merge, With(key, s, key(s[0]).value), key(s[0]).value);
    }
  }

  // ---- the result, place by place ----

  /** Each key has one place, which holds the fold of all its elements. */
  lemma {:induction false} KeyHasOnePlace<T, K>(key: T -> Option<K>, merge: (T, T) -> T, s: seq<T>, k: K)
    requires With(key, s, k) != []
    ensures PlaceOf(key, s, k) < |Coalesced(key, merge, s)|
    ensures Coalesced(key, merge, s)[PlaceOf(key, s, k)] == Fold(merge, With(key, s, k))
    decreases |s|
  {
    if key(s[0]) != Some(k) {
      WithOfRest(key, s, k);
      KeyHasOnePlace(key, merge, Rest(key, s), k);
    }
  }

  /** A keyed element of the result is at the place of its key. */
  lemma {:induction false} KeyedIsAtItsPlace<T(!new), K>(key: T -> Option<K>, merge: (T, T) -> T, s: seq<T>, i: nat)
    requires KeepsKey(key, merge) && i < |Coalesced(key, merge, s)| && key(Coalesced(key, merge, s)[i]).Some?
    ensures var k := key(Coalesced(key, merge, s)[i]).value; With(key, s, k) != [] && i == PlaceOf(key, s, k)
    decreases |s|
  {
    if i == 0 {
      HeadHasKey(key, merge, s);
    } else {
      KeyedIsAtItsPlace(key, merge, Rest(key, s), i - 1);
      WithOfRest(key, s, key(Coalesced(key, merge, s)[i]).value);
    }
  }

  lemma CoalescedHasDistinctKeys<T(!new), K>(key: T -> Option<K>, merge: (T, T) -> T, s: seq<T>)
    requires KeepsKey(key, merge)
    ensures DistinctKeys(key, Coalesced(key, merge, s))
  {
    var r := Coalesced(key, merge, s);
    forall i, j | 0 <= i < j < |r| && key(r[i]).Some? ensures key(r[i]) != key(r[j]) {
      KeyedIsAtItsPlace(key, merge, s, i);
      if key(r[j]).Some? { KeyedIsAtItsPlace(key, merge, s, j); }
    }
  }

  lemma {:induction false} WithoutAbsent<T, K>(key: T -> Option<K>, s: seq<T>, k: K)
    requires forall i :: 0 <= i < |s| ==> key(s[i]) != Some(k)
    ensures Without(key, s, k) == s && With(key, s, k) == []
  {
    if s != [] { WithoutAbsent(key, s[1..], k); }
  }

  /** A list whose keys are distinct is left alone. */
  lemma {:induction false} DistinctIsFixed<T, K>(key: T -> Option<K>, merge: (T, T) -> T, s: seq<T>)
    requires DistinctKeys(key, s)
    ensures Coalesced(key, merge, s) == s
    decreases |s|
  {
    if s != [] {
      DistinctIsFixed(key, merge, s[1..]);
      HeadStandsAlone(key, merge, s);
    }
  }

  lemma HeadStandsAlone<T, K>(key: T -> Option<K>, merge: (T, T) -> T, s: seq<T>)
    requires s != [] && DistinctKeys(key, s)
    ensures Head(key, merge, s) == s[0] && Rest(key, s) == s[1..]
  {
    if key(s[0]).Some? {
      WithoutAbsent(key, s[1..], key(s[0]).value);
      assert With(key, s, key(s[0]).value) == [s[0]];
    }
  }

  /** The elements with a key and the others are all there are. */
  lemma {:induction false} WithAndWithout<T, K>(key: T -> Option<K>, s: seq<T>, k: K)
    ensures multiset(With(key, s, k)) + multiset(Without(key, s, k)) == multiset(s)
  {
    if s != [] {
      WithAndWithout(key, s[1..], k);
      assert s == [s[0]] + s[1..];
    }
  }

  // ---- the result, one more element ----

  lemma {:induction false} CoalescedSnocNew<T, K>(key: T -> Option<K>, merge: (T, T) -> T, s: seq<T>, x: T)
    requires key(x).Some? ==> With(key, s, key(x).value) == []
    ensures Coalesced(key, merge, s + [x]) == Coalesced(key, merge, s) + [x]
    decreases |s|
  {
    if s == [] {
      assert s + [x] == [x];
      if key(x).Some? { WithSnoc(key, [], x, key(x).value); }
    } else {
      RestSnoc(key, s, x);
      HeadSnoc(key, merge, s, x);
      if key(x).Some? { WithOfRest(key, s, key(x).value); }
      CoalescedSnocNew(key, merge, Rest(key, s), x);
    }
  }

  lemma UpdateAtHead<T>(x: T, rest: seq<T>, v: T)
    ensures ([x] + rest)[0 := v] == [v] + rest
  {
  }

  lemma UpdateInTail<T>(x: T, rest: seq<T>, i: nat, v: T)
    requires i < |rest|
    ensures ([x] + rest)[i + 1 := v] == [x] + rest[i := v]
  {
  }

  /** Another element of a key seen before changes only the place of that key. */
  lemma {:induction false} CoalescedSnocSeen<T, K>(key: T -> Option<K>, merge: (T, T) -> T, s: seq<T>, x: T, k: K)
    requires key(x) == Some(k) && With(key, s, k) != [] && PlaceOf(key, s, k) < |Coalesced(key, merge, s)|
    ensures Coalesced(key, merge, s + [x]) ==
      Coalesced(key, merge, s)[PlaceOf(key, s, k) := Fold(merge, With(key, s, k) + [x])]
    decreases |s|
  {
    if key(s[0]) == Some(k) {
      SeenAtHead(key, merge, s, x, k);
      UpdateAtHead(Head(key, merge, s), Coalesced(key, merge, Rest(key, s)), Fold(merge, With(key, s, k) + [x]));
    } else {
      SeenInRest(key, merge, s, x, k);
      CoalescedSnocSeen(key, merge, Rest(key, s), x, k);
      UpdateInTail(Head(key, merge, s), Coalesced(key, merge, Rest(key, s)), PlaceOf(key, Rest(key, s), k),
                   Fold(merge, With(key, s, k) + [x]));
    }
  }

  lemma SeenAtHead<T, K>(key: T -> Option<K>, merge: (T, T) -> T, s: seq<T>, x: T, k: K)
    requires s != [] && key(s[0]) == Some(k) == key(x) && With(key, s, k) != []
    ensures Coalesced(key, merge, s + [x]) == [Fold(merge, With(key, s, k) + [x])] + Coalesced(key, merge, Rest(key, s))
  {
    RestSnoc(key, s, x);
    WithSnoc(key, s, x, k);
    assert (s + [x])[0] == s[0];
    assert Head(key, merge, s + [x]) == Fold(merge, With(key, s, k) + [x]);
  }

  lemma SeenInRest<T, K>(key: T -> Option<K>, merge: (T, T) -> T, s: seq<T>, x: T, k: K)
    requires s != [] && key(s[0]) != Some(k) == key(x) && With(key, s, k) != []
    ensures Coalesced(key, merge, s + [x]) == [Head(key, merge, s)] + Coalesced(key, merge, Rest(key, s) + [x])
    ensures With(key, Rest(key, s), k) == With(key, s, k) && PlaceOf(key, s, k) == 1 + PlaceOf(key, Rest(key, s), k)
    ensures PlaceOf(key, Rest(key, s), k) < |Coalesced(key, merge, Rest(key, s))|
  {
    RestSnoc(key, s, x);
    HeadSnoc(key, merge, s, x);
    WithOfRest(key, s, k);
    KeyHasOnePlace(key, merge, Rest(key, s), k);
  }

  lemma {:induction false} PlaceSnoc<T, K>(key: T -> Option<K>, merge: (T, T) -> T, s: seq<T>, x: T, k: K)
    ensures With(key, s, k) != [] ==> PlaceOf(key, s + [x], k) == PlaceOf(key, s, k)
    ensures With(key, s, k) == [] && key(x) == Some(k) ==> PlaceOf(key, s + [x], k) == |Coalesced(key, merge, s)|
    decreases |s|
  {
    if s == [] {
      assert s + [x] == [x];
    } else {
      RestSnoc(key, s, x);
      WithOfRest(key, s, k);
      if key(s[0]) != Some(k) { PlaceSnoc(key, merge, Rest(key, s), x, k); }
    }
  }

  /** An index that knows the place of every key seen so far. */
  ghost predicate Indexed<T, K(!new)>(key: T -> Option<K>, s: seq<T>, index: map<K, nat>) {
    forall k :: (k in index <==> With(key, s, k) != []) && (k in index ==> index[k] == PlaceOf(key, s, k))
  }

  lemma IndexGrows<T, K(!new)>(key: T -> Option<K>, merge: (T, T) -> T, s: seq<T>, x: T, index: map<K, nat>)
    requires Indexed(key, s, index)
    ensures Indexed(key, s + [x],
      if key(x).None? || key(x).value in index then index else index[key(x).value := |Coalesced(key, merge, s)|])
  {
    var grown := if key(x).None? || key(x).value in index then index
      else index[key(x).value := |Coalesced(key, merge, s)|];
    forall k
      ensures (k in grown <==> With(key, s + [x], k) != []) && (k in grown ==> grown[k] == PlaceOf(key, s + [x], k))
    {
      WithSnoc(key, s, x, k);
      PlaceSnoc(key, merge, s, x, k);
    }
  }
}
