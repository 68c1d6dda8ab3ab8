/** The scanner that finds GitHub pull-request URLs, against a declarative
    description of what such a reference in a text is. */
module PrUrls {
  import opened Basics
  import opened TicketKeys

  const MARKER := "/pull/"
  const HOST := "github.com"

  datatype PrRef = PrRef(externalId: string, caption: string)

  predicate IsUrlIdent(c: char) { IsAlnum(c) || c == '-' || c == '_' || c == '.' }

  function Lower(c: char): char {
    if IsUpper(c) then (c as int + 32) as char else c
  }

  ghost predicate SameIgnoringCase(a: string, b: string) {
    |a| == |b| && forall k :: 0 <= k < |a| ==> Lower(a[k]) == Lower(b[k])
  }

  predicate MarkerAt(s: string, m: nat) {
    m + 6 <= |s| && s[m..m + 6] == MARKER
  }

  /** `/github.com/<owner>/<repo>/pull/<digits>`: the slashes before the host,
      the owner and the repository, the marker, and the end of the digits. */
  ghost predicate RefSpan(s: string, h: nat, o: nat, r: nat, m: nat, j: nat) {
    && h < o < r < m && m + 6 < j <= |s|
    && s[h] == '/' && s[o] == '/' && s[r] == '/' && MarkerAt(s, m)
    && SameIgnoringCase(s[h + 1..o], HOST)
    && o + 1 < r && (forall k :: o < k < r ==> IsUrlIdent(s[k]))
    && r + 1 < m && (forall k :: r < k < m ==> IsUrlIdent(s[k]))
    && (forall k :: m + 6 <= k < j ==> IsDigit(s[k]))
    && (j == |s| || !IsDigit(s[j]))
  }

  function RefText(s: string, r: nat, m: nat, j: nat): PrRef
    requires r < m && m + 6 <= j <= |s|
  {
    PrRef(s[r + 1..m] + "#" + s[m + 6..j], "#" + s[m + 6..j])
  }

  ghost predicate RefAt(s: string, m: nat, ref: PrRef) {
    exists h: nat, o: nat, r: nat, j: nat :: RefSpan(s, h, o, r, m, j) && ref == RefText(s, r, m, j)
  }

  ghost predicate StartsRef(s: string, m: nat) {
    exists ref :: RefAt(s, m, ref)
  }

  /** The markers the scan looks at: one that shares its first slash with the
      last slash of a marker the scan looked at is stepped over. */
  predicate Visited(s: string, m: nat) {
    MarkerAt(s, m) && !(m >= 5 && Visited(s, m - 5))
  }

  /** The references at visited markers from `i` on, in order. */
  ghost function RefsFrom(s: string, i: nat): seq<PrRef>
    decreases |s| - i
  {
    if i >= |s| then []
    else if Visited(s, i) && StartsRef(s, i) then
      var ref :| RefAt(s, i, ref);
      [ref] + RefsFrom(s, i + 1)
    else RefsFrom(s, i + 1)
  }

  ghost function Refs(s: string): seq<PrRef> { RefsFrom(s, 0) }

  lemma RefSpanIsUnique(s: string, h: nat, o: nat, r: nat, m: nat, j: nat, h': nat, o': nat, r': nat, j': nat)
    requires RefSpan(s, h, o, r, m, j) && RefSpan(s, h', o', r', m, j')
    ensures r == r' && o == o' && j == j'
  {
  }

  lemma RefIsUnique(s: string, m: nat, a: PrRef, b: PrRef)
    requires RefAt(s, m, a) && RefAt(s, m, b)
    ensures a == b
  {
    var h: nat, o: nat, r: nat, j: nat :| RefSpan(s, h, o, r, m, j) && a == RefText(s, r, m, j);
    var h': nat, o': nat, r': nat, j': nat :| RefSpan(s, h', o', r', m, j') && b == RefText(s, r', m, j');
    RefSpanIsUnique(s, h, o, r, m, j, h', o', r', j');
  }

  lemma RefComesNext(s: string, m: nat, ref: PrRef)
    requires RefAt(s, m, ref) && Visited(s, m)
    ensures m < |s| && RefsFrom(s, m) == [ref] + RefsFrom(s, m + 1)
  {
    forall other | RefAt(s, m, other) ensures other == ref { RefIsUnique(s, m, ref, other); }
  }

  lemma {:induction false} NoRefsBetween(s: string, i: nat, j: nat)
    requires i <= j <= |s| && forall m :: i <= m < j ==> !(Visited(s, m) && StartsRef(s, m))
    ensures RefsFrom(s, i) == RefsFrom(s, j)
    decreases j - i
  {
    if i < j { NoRefsBetween(s, i + 1, j); }
  }

  lemma MarkerStartsWithSlash(s: string, m: nat)
    ensures MarkerAt(s, m) ==> s[m] == '/'
  {
    if MarkerAt(s, m) { assert s[m] == s[m..m + 6][0]; }
  }

  /** The next marker after one starts five bytes on, or later. */
  lemma MarkersOverlapByASlash(s: string, m: nat, n: nat)
    requires MarkerAt(s, m) && MarkerAt(s, n) && m < n
    ensures n >= m + 5
  {
    assert s[m..m + 6][0] == '/' && s[n..n + 6][0] == '/';
    assert forall k :: 0 <= k < 6 ==> s[m..m + 6][k] == s[m + k] && MARKER[k] == s[m + k];
    assert s[n] == '/';
  }

  // ---- the byte helpers ----

  method RfindByte(hay: string, end: nat, target: char) returns (found: Option<nat>)
    requires end <= |hay|
    ensures found.Some? ==> found.value < end && hay[found.value] == target
    ensures found.Some? ==> forall k :: found.value < k < end ==> hay[k] != target
    ensures found.None? ==> forall k :: 0 <= k < end ==> hay[k] != target
  {
    var k := end;
    while k > 0
      invariant 0 <= k <= end && forall x :: k <= x < end ==> hay[x] != target
    {
      k := k - 1;
      if hay[k] == target { return Some(k); }
    }
    found := None;
  }

  method EqIgnoreAsciiCase(a: string, b: string) returns (same: bool)
    ensures same <==> SameIgnoringCase(a, b)
  {
    if |a| != |b| { return false; }
    for k := 0 to |a|
      invariant forall x :: 0 <= x < k ==> Lower(a[x]) == Lower(b[x])
    {
      if Lower(a[k]) != Lower(b[k]) { return false; }
    }
    same := true;
  }

  method AllUrlIdent(a: string) returns (all: bool)
    ensures all <==> forall k :: 0 <= k < |a| ==> IsUrlIdent(a[k])
  {
    for k := 0 to |a|
      invariant forall x :: 0 <= x < k ==> IsUrlIdent(a[x])
    {
      if !IsUrlIdent(a[k]) { return false; }
    }
    all := true;
  }

  /** What lies before a marker: the start of the repository segment, if the
      three segments before it are the host, an owner and a repository. */
  method SegmentsBefore(bytes: string, m: nat) returns (repo: Option<nat>)
    requires m <= |bytes|
    ensures repo.Some? ==> exists h: nat, o: nat :: Segments(bytes, h, o, repo.value, m)
    ensures repo.None? ==> forall h: nat, o: nat, r: nat :: !Segments(bytes, h, o, r, m)
  {
    var r := RfindByte(bytes, m, '/');
    if r.None? { return None; }
    var o := RfindByte(bytes, r.value, '/');
    if o.None? { return None; }
    var h := RfindByte(bytes, o.value, '/');
    if h.None? { return None; }
    ghost var unique := forall h': nat, o': nat, r': nat :: Segments(bytes, h', o', r', m) ==>
      r' == r.value && o' == o.value && h' == h.value;
    assert unique by {
      forall h': nat, o': nat, r': nat | Segments(bytes, h', o', r', m)
        ensures r' == r.value && o' == o.value && h' == h.value
      {
        SegmentsAreUnique(bytes, h', o', r', m, h.value, o.value, r.value);
      }
    }
    var isHost := EqIgnoreAsciiCase(bytes[h.value + 1..o.value], HOST);
    if !isHost { return None; }
    var owner := bytes[o.value + 1..r.value];
    var name := bytes[r.value + 1..m];
    var ownerOk := AllUrlIdent(owner);
    var nameOk := AllUrlIdent(name);
    if owner == [] || name == [] || !ownerOk || !nameOk { return None; }
    assert forall k :: o.value < k < r.value ==> bytes[k] == owner[k - o.value - 1];
    assert forall k :: r.value < k < m ==> bytes[k] == name[k - r.value - 1];
    assert Segments(bytes, h.value, o.value, r.value, m);
    repo := Some(r.value);
  }

  ghost predicate Segments(s: string, h: nat, o: nat, r: nat, m: nat) {
    && h < o < r < m <= |s|
    && s[h] == '/' && s[o] == '/' && s[r] == '/'
    && SameIgnoringCase(s[h + 1..o], HOST)
    && o + 1 < r && (forall k :: o < k < r ==> IsUrlIdent(s[k]))
    && r + 1 < m && (forall k :: r < k < m ==> IsUrlIdent(s[k]))
  }

  lemma HostHasNoSlash(a: string)
    requires SameIgnoringCase(a, HOST)
    ensures '/' !in a
  {
  }

  lemma SegmentsAreUnique(s: string, h: nat, o: nat, r: nat, m: nat, h': nat, o': nat, r': nat)
    requires Segments(s, h, o, r, m) && h' < o' < r' < m
    requires s[h'] == '/' && s[o'] == '/' && s[r'] == '/'
    requires forall k :: (h' < k < o' || o' < k < r' || r' < k < m) ==> s[k] != '/'
    ensures h == h' && o == o' && r == r'
  {
    HostHasNoSlash(s[h + 1..o]);
    assert forall k :: h < k < o ==> s[k] == s[h + 1..o][k - h - 1];
  }

  // ---- the scan ----

  method DigitsEnd(bytes: string, start: nat) returns (j: nat)
    requires start <= |bytes|
    ensures start <= j <= |bytes| && (forall k :: start <= k < j ==> IsDigit(bytes[k]))
    ensures j == |bytes| || !IsDigit(bytes[j])
  {
    j := start;
    while j < |bytes| && IsDigit(bytes[j])
      invariant start <= j <= |bytes| && forall k :: start <= k < j ==> IsDigit(bytes[k])
    {
      j := j + 1;
    }
  }

  /** The reference at a marker, if there is one, and the end of its digits. */
  method ReadRef(bytes: string, m: nat) returns (ref: Option<PrRef>, j: nat)
    requires MarkerAt(bytes, m)
    ensures ref.Some? <==> StartsRef(bytes, m)
    ensures ref.Some? ==>
      exists h: nat, o: nat, r: nat :: RefSpan(bytes, h, o, r, m, j) && ref.value == RefText(bytes, r, m, j)
  {
    j := m + 6;
    var repo := SegmentsBefore(bytes, m);
    if repo.None? {
      NoSegmentsNoRef(bytes, m);
      return None, j;
    }
    j := DigitsEnd(bytes, m + 6);
    if j == m + 6 {
      NoDigitNoRef(bytes, m);
      return None, j;
    }
    ghost var h: nat, o: nat :| Segments(bytes, h, o, repo.value, m);
    assert RefSpan(bytes, h, o, repo.value, m, j);
    ref := Some(RefText(bytes, repo.value, m, j));
    assert RefAt(bytes, m, ref.value);
  }

  /** No marker that counts starts in the five places before `i`. */
  ghost predicate ClearBefore(text: string, i: nat) { forall m :: 0 <= m && i - 5 <= m < i ==> !Visited(text, m) }

  lemma NoMarkerMovesOn(text: string, i: nat)
    requires i + 6 <= |text| && ClearBefore(text, i) && !MarkerAt(text, i)
    ensures ClearBefore(text, i + 1) && RefsFrom(text, i) == RefsFrom(text, i + 1)
  {
    NotVisited(text, i);
    assert RefsFrom(text, i) == RefsFrom(text, i + 1) by { NoRefsBetween(text, i, i + 1); }
  }

  lemma NotVisited(text: string, i: nat)
    ensures !MarkerAt(text, i) ==> !Visited(text, i)
  {
  }

  lemma RejectedMarkerMovesOn(text: string, i: nat)
    requires i + 6 <= |text| && Visited(text, i) && !StartsRef(text, i)
    ensures ClearBefore(text, i + 6) && RefsFrom(text, i) == RefsFrom(text, i + 6)
  {
    NothingVisitedAfter(text, i);
    NoRefsBetween(text, i, i + 6);
  }

  lemma ClearMarkerIsVisited(text: string, i: nat)
    requires ClearBefore(text, i) && MarkerAt(text, i)
    ensures Visited(text, i)
  {
  }

  /** What the loop finds at `i`, and where it goes on. */
  method Advance(text: string, i: nat) returns (found: seq<PrRef>, next: nat)
    requires i + 6 <= |text| && ClearBefore(text, i)
    ensures i < next <= |text| && ClearBefore(text, next)
    ensures RefsFrom(text, i) == found + RefsFrom(text, next)
  {
    if text[i..i + 6] != MARKER {
      NoMarkerMovesOn(text, i);
      return [], i + 1;
    }
    ClearMarkerIsVisited(text, i);
    var ref, j := ReadRef(text, i);
    if ref.None? {
      RejectedMarkerMovesOn(text, i);
      return [], i + 6;
    }
    RefAndDigits(text, i, j, ref.value);
    found, next := [ref.value], j;
  }

  method ScanGithubPrUrls(text: string, into: seq<PrRef>) returns (out: seq<PrRef>)
    ensures out == into + Refs(text)
  {
    out := into;
    var i := 0;
    while i + 6 <= |text|
      invariant i <= |text| && ClearBefore(text, i)
      invariant out + RefsFrom(text, i) == into + Refs(text)
    {
      var found, next := Advance(text, i);
      assert out + (found + RefsFrom(text, next)) == out + found + RefsFrom(text, next);
      out, i := out + found, next;
    }
    NoRefsBetween(text, i, |text|);
  }

  lemma RefAndDigits(s: string, m: nat, j: nat, ref: PrRef)
    requires Visited(s, m)
    requires exists h: nat, o: nat, r: nat :: RefSpan(s, h, o, r, m, j) && ref == RefText(s, r, m, j)
    ensures m + 6 < j <= |s| && RefsFrom(s, m) == [ref] + RefsFrom(s, j)
    ensures forall n :: m < n < j ==> !Visited(s, n)
  {
    var h: nat, o: nat, r: nat :| RefSpan(s, h, o, r, m, j) && ref == RefText(s, r, m, j);
    assert RefAt(s, m, ref);
    RefComesNext(s, m, ref);
    NothingVisitedInDigits(s, m, j);
    NoRefsBetween(s, m + 1, j);
  }

  lemma NothingVisitedAfter(s: string, m: nat)
    requires Visited(s, m)
    ensures forall n :: m < n < m + 6 ==> !Visited(s, n)
  {
    forall n: nat | m < n < m + 6 && MarkerAt(s, n) ensures n == m + 5 { MarkersOverlapByASlash(s, m, n); }
  }

  lemma NothingVisitedInDigits(s: string, m: nat, j: nat)
    requires Visited(s, m) && m + 6 < j <= |s| && forall k :: m + 6 <= k < j ==> IsDigit(s[k])
    ensures forall n :: m < n < j ==> !Visited(s, n)
  {
    NothingVisitedAfter(s, m);
    forall n: nat | m + 6 <= n < j ensures !MarkerAt(s, n) {
      assert IsDigit(s[n]);
      MarkerStartsWithSlash(s, n);
    }
  }

  lemma NoSegmentsNoRef(s: string, m: nat)
    requires forall h: nat, o: nat, r: nat :: !Segments(s, h, o, r, m)
    ensures !StartsRef(s, m)
  {
    forall h: nat, o: nat, r: nat, j: nat | RefSpan(s, h, o, r, m, j) ensures Segments(s, h, o, r, m) {}
  }

  lemma NoDigitNoRef(s: string, m: nat)
    requires m + 6 >= |s| || !IsDigit(s[m + 6])
    ensures !StartsRef(s, m)
  {
  }

  // ---- what the scan finds ----

  ghost predicate FoundFrom(s: string, i: nat, ref: PrRef) {
    exists m: nat :: i <= m && Visited(s, m) && RefAt(s, m, ref)
  }

  lemma FoundHereOrLater(s: string, i: nat, ref: PrRef)
    ensures FoundFrom(s, i, ref) <==> (Visited(s, i) && RefAt(s, i, ref)) || FoundFrom(s, i + 1, ref)
  {
    if FoundFrom(s, i, ref) {
      var m: nat :| i <= m && Visited(s, m) && RefAt(s, m, ref);
      assert m == i || i + 1 <= m;
    }
  }

  /** Sound, and complete up to the visited markers. */
  lemma {:induction false} RefsAreExact(s: string, i: nat, ref: PrRef)
    requires i <= |s|
    ensures ref in RefsFrom(s, i) <==> FoundFrom(s, i, ref)
    decreases |s| - i
  {
    if i < |s| {
      RefsAreExact(s, i + 1, ref);
      FoundHereOrLater(s, i, ref);
      if Visited(s, i) && StartsRef(s, i) {
        var here :| RefAt(s, i, here);
        RefComesNext(s, i, here);
        if RefAt(s, i, ref) { RefIsUnique(s, i, here, ref); }
      }
    }
  }

  /** When no two markers share a slash, every reference in the text is found. */
  lemma AllRefsFoundWithoutSharedSlashes(s: string, m: nat, ref: PrRef)
    requires forall n: nat :: 5 <= n && MarkerAt(s, n) ==> !MarkerAt(s, n - 5)
    requires RefAt(s, m, ref)
    ensures ref in Refs(s)
  {
    assert MarkerAt(s, m);
    assert Visited(s, m);
    RefsAreExact(s, 0, ref);
  }

  const SHARED := "/github.com/o/pull/pull/4"

  lemma SharedHasReference()
    ensures RefAt(SHARED, 18, PrRef("pull#4", "#4"))
  {
    assert |SHARED| == 25 && |HOST| == 10;
    assert forall k :: 0 <= k < 10 ==> SHARED[1 + k] == HOST[k];
    assert SHARED[1..11] == HOST;
    SharedMarkers(18);
    assert forall k :: 0 <= k < 4 ==> SHARED[14 + k] == "pull"[k];
    assert SHARED[14..18] == "pull" && SHARED[24..25] == "4";
    assert RefSpan(SHARED, 0, 11, 13, 18, 25);
    assert RefText(SHARED, 13, 18, 25) == PrRef("pull#4", "#4");
  }

  lemma SharedHasMarkers()
    ensures MarkerAt(SHARED, 13) && MarkerAt(SHARED, 18)
  {
    assert |SHARED| == 25;
    assert forall k :: 0 <= k < 6 ==> SHARED[13 + k] == MARKER[k] && SHARED[18 + k] == MARKER[k];
    assert SHARED[13..19] == MARKER && SHARED[18..24] == MARKER;
  }

  lemma SharedMarkers(m: nat)
    ensures MarkerAt(SHARED, m) <==> m == 13 || m == 18
  {
    SharedHasMarkers();
    assert |SHARED| == 25;
    if MarkerAt(SHARED, m) {
      MarkerStartsWithSlash(SHARED, m);
      assert SHARED[m + 1] == SHARED[m..m + 6][1];
    }
  }

  /** A repository named `pull`: the reference is there and is not found. */
  lemma SharedSlashHidesReference()
    ensures RefAt(SHARED, 18, PrRef("pull#4", "#4")) && Refs(SHARED) == []
  {
    SharedHasReference();
    SharedMarkers(8);
    SharedMarkers(13);
    SharedMarkers(18);
    assert Visited(SHARED, 13) && !Visited(SHARED, 18);
    NoDigitNoRef(SHARED, 13);
    forall m: nat | m < |SHARED| ensures !(Visited(SHARED, m) && StartsRef(SHARED, m)) { SharedMarkers(m); }
    NoRefsBetween(SHARED, 0, |SHARED|);
  }
}
