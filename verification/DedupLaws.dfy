/** What deduplication promises about its output, for any order of its input. */
module DedupLaws {
  import opened Basics
  import opened Activity
  import opened Coalesce
  import opened Dedup

  lemma {:induction false} UnionElements<T>(a: seq<T>, b: seq<T>, x: T)
    ensures x in Union(a, b) <==> x in a || x in b
    decreases b
  {
    if b != [] { UnionElements(if b[0] in a then a else a + [b[0]], b[1..], x); }
  }

  // ---- the profile of a SHA ----

  /** `c` would not win against `w`. */
  predicate Beats(w: Event, c: Event) {
    BodyRank(c) < BodyRank(w) || (BodyRank(c) == BodyRank(w) && w.sourceId <= c.sourceId)
  }

  /** `w` has the longest body, the least source among those, the links and
      entities of all, and the strictest privacy of a set of commits. */
  ghost predicate Canonical(cs: seq<Event>, w: Event) {
    && (exists c :: c in cs && BodyRank(w) == BodyRank(c) && w.sourceId == c.sourceId)
    && (forall c :: c in cs ==> Beats(w, c))
    && (forall l :: l in w.links <==> exists c :: c in cs && l in c.links)
    && (forall x :: x in w.entities <==> exists c :: c in cs && x in c.entities)
    && (w.privacy.RedactedPrivateRepo? <==> exists c :: c in cs && c.privacy.RedactedPrivateRepo?)
    && (w.actor.email.Some? <==> exists c :: c in cs && c.actor.email.Some?)
    && (w.actor.externalId.Some? <==> exists c :: c in cs && c.actor.externalId.Some?)
  }

  lemma MergedProfile(a: Event, b: Event)
    ensures var m := Merged(a, b);
      && ((m.sourceId == a.sourceId && BodyRank(m) == BodyRank(a))
           || (m.sourceId == b.sourceId && BodyRank(m) == BodyRank(b)))
      && Beats(m, a) && Beats(m, b)
      && (m.privacy.RedactedPrivateRepo? <==> a.privacy.RedactedPrivateRepo? || b.privacy.RedactedPrivateRepo?)
      && (m.actor.email.Some? <==> a.actor.email.Some? || b.actor.email.Some?)
      && (m.actor.externalId.Some? <==> a.actor.externalId.Some? || b.actor.externalId.Some?)
  {
  }

  lemma MergedLists(a: Event, b: Event)
    ensures forall l :: l in Merged(a, b).links <==> l in a.links || l in b.links
    ensures forall x :: x in Merged(a, b).entities <==> x in a.entities || x in b.entities
  {
    forall l ensures l in Merged(a, b).links <==> l in a.links || l in b.links {
      UnionElements(a.links, b.links, l);
      UnionElements(b.links, a.links, l);
    }
    forall x ensures x in Merged(a, b).entities <==> x in a.entities || x in b.entities {
      UnionElements(a.entities, b.entities, x);
      UnionElements(b.entities, a.entities, x);
    }
  }

  lemma MergeKeepsCanonical(cs: seq<Event>, w: Event, e: Event, all: seq<Event>)
    requires Canonical(cs, w) && all == cs + [e]
    ensures Canonical(all, Merged(w, e))
  {
    assert e in all && forall c :: c in all <==> c in cs || c == e;
    MergedProfile(w, e);
    MergedLists(w, e);
  }

  lemma OneIsCanonical(cs: seq<Event>)
    requires |cs| == 1
    ensures Canonical(cs, cs[0])
  {
    assert cs[0] in cs;
  }

  lemma {:induction false} FoldIsCanonical(cs: seq<Event>)
    requires cs != []
    ensures Canonical(cs, Fold(Merged, cs))
  {
    if |cs| == 1 {
      OneIsCanonical(cs);
    } else {
      FoldIsCanonical(cs[..|cs| - 1]);
      MergeKeepsCanonical(cs[..|cs| - 1], Fold(Merged, cs[..|cs| - 1]), cs[|cs| - 1], cs);
    }
  }

  // ---- which copy is kept ----

  /** `c` has a longer body than `d`, or one as long and no larger source. */
  predicate Outranks(c: Event, d: Event) {
    var (m, n) := (if c.body.Some? then |c.body.value| else 0, if d.body.Some? then |d.body.value| else 0);
    n < m || (n == m && c.sourceId <= d.sourceId)
  }

  /** The kept value is the copy's own; where the copy has none it is another's. */
  ghost predicate KeptOrFilled(kept: Option<string>, own: Option<string>, others: set<Option<string>>) {
    (own.Some? ==> kept == own) && (own.None? && kept.Some? ==> kept in others)
  }

  /** `w` is the copy `c` in every field, but for the links and entities added
      behind its own, the privacy, and the parts of the actor that `c` lacks. */
  ghost predicate KeptFrom(cs: seq<Event>, c: Event, w: Event) {
    && c in cs
    && (forall d :: d in cs ==> Outranks(c, d))
    && w == c.(links := w.links, entities := w.entities, privacy := w.privacy, actor := w.actor)
    && c.links <= w.links && c.entities <= w.entities
    && w.actor.displayName == c.actor.displayName
    && KeptOrFilled(w.actor.email, c.actor.email, set d | d in cs :: d.actor.email)
    && KeptOrFilled(w.actor.externalId, c.actor.externalId, set d | d in cs :: d.actor.externalId)
  }

  lemma {:induction false} UnionExtends<T>(a: seq<T>, b: seq<T>)
    ensures a <= Union(a, b)
    decreases b
  {
    if b != [] { UnionExtends(if b[0] in a then a else a + [b[0]], b[1..]); }
  }

  lemma MoreOthers(cs: seq<Event>, e: Event, all: seq<Event>)
    requires all == cs + [e]
    ensures (set d | d in all :: d.actor.email) == (set d | d in cs :: d.actor.email) + {e.actor.email}
    ensures (set d | d in all :: d.actor.externalId) == (set d | d in cs :: d.actor.externalId) + {e.actor.externalId}
  {
    assert forall d :: d in all <==> d in cs || d == e;
  }

  lemma KeptOfOne(cs: seq<Event>, c: Event)
    requires cs == [c]
    ensures KeptFrom(cs, c, c)
  {
  }

  lemma KeptStays(cs: seq<Event>, c: Event, w: Event, e: Event, all: seq<Event>)
    requires KeptFrom(cs, c, w) && all == cs + [e] && Outranks(w, e)
    ensures KeptFrom(all, c, Merged(w, e))
  {
    assert forall d :: d in all <==> d in cs || d == e;
    MoreOthers(cs, e, all);
    UnionExtends(w.links, e.links);
    UnionExtends(w.entities, e.entities);
  }

  lemma KeptYields(cs: seq<Event>, c: Event, w: Event, e: Event, all: seq<Event>)
    requires KeptFrom(cs, c, w) && all == cs + [e] && !Outranks(w, e)
    ensures KeptFrom(all, e, Merged(w, e))
  {
    assert forall d :: d in all <==> d in cs || d == e;
    MoreOthers(cs, e, all);
    UnionExtends(e.links, w.links);
    UnionExtends(e.entities, w.entities);
    FilledFromKept(cs, c, w);
  }

  lemma KeptGrows(cs: seq<Event>, c: Event, w: Event, e: Event, all: seq<Event>)
    requires KeptFrom(cs, c, w) && all == cs + [e]
    ensures KeptFrom(all, if Outranks(w, e) then c else e, Merged(w, e))
  {
    if Outranks(w, e) { KeptStays(cs, c, w, e, all); } else { KeptYields(cs, c, w, e, all); }
  }

  /** What the kept commit has of an actor, a copy has. */
  lemma FilledFromKept(cs: seq<Event>, c: Event, w: Event)
    requires KeptFrom(cs, c, w)
    ensures w.actor.email.Some? ==> w.actor.email in set d | d in cs :: d.actor.email
    ensures w.actor.externalId.Some? ==> w.actor.externalId in set d | d in cs :: d.actor.externalId
  {
  }

  lemma {:induction false} FoldIsKept(cs: seq<Event>) returns (c: Event)
    requires cs != []
    ensures KeptFrom(cs, c, Fold(Merged, cs))
  {
    if |cs| == 1 {
      c := cs[0];
      KeptOfOne(cs, c);
    } else {
      var (front, e) := (cs[..|cs| - 1], cs[|cs| - 1]);
      var held := FoldIsKept(front);
      KeptGrows(front, held, Fold(Merged, front), e, cs);
      c := if Outranks(Fold(Merged, front), e) then held else e;
    }
  }

  /** What two orders of the same commits must agree on. */
  ghost predicate SameProfile(a: Event, b: Event) {
    && BodyRank(a) == BodyRank(b) && a.sourceId == b.sourceId && a.privacy == b.privacy
    && (forall l :: l in a.links <==> l in b.links)
    && (forall x :: x in a.entities <==> x in b.entities)
    && (a.actor.email.Some? <==> b.actor.email.Some?)
    && (a.actor.externalId.Some? <==> b.actor.externalId.Some?)
  }

  lemma CanonicalIsUnique(cs: seq<Event>, ds: seq<Event>, v: Event, w: Event)
    requires Canonical(cs, v) && Canonical(ds, w) && forall c :: c in cs <==> c in ds
    ensures SameProfile(v, w)
  {
    var c :| c in cs && BodyRank(v) == BodyRank(c) && v.sourceId == c.sourceId;
    var d :| d in ds && BodyRank(w) == BodyRank(d) && w.sourceId == d.sourceId;
    assert Beats(w, c) && Beats(v, d);
  }

  /** The commit a SHA keeps is the copy that outranks all others, in every field
      that is not merged; and its merged fields are those of the copies together. */
  lemma KeptCommitIsCanonical(es: seq<Event>, sha: string) returns (c: Event)
    requires Commits(es, sha) != []
    ensures var i := PlaceOf(ShaOf, es, sha);
      i < |Deduped(es)| && Deduped(es)[i] == Fold(Merged, Commits(es, sha)) && ShaOf(Deduped(es)[i]) == Some(sha)
        && Canonical(Commits(es, sha), Deduped(es)[i]) && KeptFrom(Commits(es, sha), c, Deduped(es)[i])
    ensures c in es && c.kind == CommitAuthored && c.externalId == sha
  {
    c := FoldIsKept(Commits(es, sha));
    MergedKeepsSha();
    WithMembers(ShaOf, es, sha);
    FoldHasKey(ShaOf, Merged, Commits(es, sha), sha);
    KeyHasOnePlace(ShaOf, Merged, es, sha);
    FoldIsCanonical(Commits(es, sha));
  }

  lemma ReorderedCommits(es: seq<Event>, fs: seq<Event>, sha: string)
    requires multiset(es) == multiset(fs)
    ensures forall c :: c in Commits(es, sha) <==> c in Commits(fs, sha)
  {
    WithMembers(ShaOf, es, sha);
    WithMembers(ShaOf, fs, sha);
    assert forall e :: e in es <==> e in multiset(es);
    assert forall e :: e in fs <==> e in multiset(fs);
  }

  /** For any reordering of the input, each SHA keeps one commit, at the place of
      its first one, and the two outputs agree on its profile. */
  lemma DedupIgnoresOrder(es: seq<Event>, fs: seq<Event>, sha: string)
    requires multiset(es) == multiset(fs) && Commits(es, sha) != []
    ensures var (i, j) := (PlaceOf(ShaOf, es, sha), PlaceOf(ShaOf, fs, sha));
      && i < |Deduped(es)| && j < |Deduped(fs)|
      && ShaOf(Deduped(es)[i]) == Some(sha) && ShaOf(Deduped(fs)[j]) == Some(sha)
      && SameProfile(Deduped(es)[i], Deduped(fs)[j])
  {
    ReorderedCommits(es, fs, sha);
    assert Commits(es, sha)[0] in Commits(fs, sha);
    var c := KeptCommitIsCanonical(es, sha);
    var d := KeptCommitIsCanonical(fs, sha);
    CanonicalIsUnique(Commits(es, sha), Commits(fs, sha),
                      Deduped(es)[PlaceOf(ShaOf, es, sha)], Deduped(fs)[PlaceOf(ShaOf, fs, sha)]);
  }

  // ---- what stays ----

  function NonCommits(es: seq<Event>): seq<Event> {
    if es == [] then []
    else if es[0].kind == CommitAuthored then NonCommits(es[1..])
    else [es[0]] + NonCommits(es[1..])
  }

  lemma {:induction false} NonCommitsOfWithout(es: seq<Event>, sha: string)
    ensures NonCommits(Without(ShaOf, es, sha)) == NonCommits(es)
  {
    if es != [] { NonCommitsOfWithout(es[1..], sha); }
  }

  /** Events that are not commits come out unchanged and in order. */
  lemma {:induction false} NonCommitsPassThrough(es: seq<Event>)
    ensures NonCommits(Deduped(es)) == NonCommits(es)
    decreases |es|
  {
    if es != [] {
      MergedKeepsSha();
      HeadHasKey(ShaOf, Merged, es);
      if es[0].kind == CommitAuthored { NonCommitsOfWithout(es[1..], es[0].externalId); }
      NonCommitsPassThrough(Rest(ShaOf, es));
    }
  }

  /** No SHA is invented or dropped, and none appears twice. */
  lemma ShasAreKept(es: seq<Event>, sha: string)
    ensures DistinctKeys(ShaOf, Deduped(es))
    ensures Commits(es, sha) != [] <==> exists e :: e in Deduped(es) && ShaOf(e) == Some(sha)
  {
    MergedKeepsSha();
    CoalescedHasDistinctKeys(ShaOf, Merged, es);
    if Commits(es, sha) != [] {
      WithMembers(ShaOf, es, sha);
      KeyHasOnePlace(ShaOf, Merged, es, sha);
      FoldHasKey(ShaOf, Merged, Commits(es, sha), sha);
    }
    forall k | 0 <= k < |Deduped(es)| && ShaOf(Deduped(es)[k]) == Some(sha) ensures Commits(es, sha) != [] {
      KeyedIsAtItsPlace(ShaOf, Merged, es, k);
    }
  }

  // ---- where it stands ----

  /** Both are commits of one SHA. */
  predicate SameCommit(a: Event, b: Event) {
    a.kind == CommitAuthored && b.kind == CommitAuthored && a.externalId == b.externalId
  }

  lemma NewCommit(es: seq<Event>, e: Event)
    requires forall d :: d in es ==> !SameCommit(d, e)
    ensures Deduped(es + [e]) == Deduped(es) + [e]
  {
    if ShaOf(e).Some? {
      WithMembers(ShaOf, es, e.externalId);
      var same := Commits(es, e.externalId);
      if same != [] { assert same[0] in same && SameCommit(same[0], e); }
    }
    CoalescedSnocNew(ShaOf, Merged, es, e);
  }

  /** One more event comes last, unless it is a commit seen before: then the list stays
      as long as it was, and only the one place of that commit changes. */
  lemma OneMoreEvent(es: seq<Event>, e: Event)
    ensures (forall d :: d in es ==> !SameCommit(d, e)) ==> Deduped(es + [e]) == Deduped(es) + [e]
    ensures (exists d :: d in es && SameCommit(d, e)) ==>
      exists i ::
        && 0 <= i < |Deduped(es)| && SameCommit(Deduped(es)[i], e)
        && |Deduped(es + [e])| == |Deduped(es)| && SameCommit(Deduped(es + [e])[i], e)
        && forall j :: 0 <= j < |Deduped(es)| && j != i ==> Deduped(es + [e])[j] == Deduped(es)[j]
  {
    if d :| d in es && SameCommit(d, e) {
      var i := SeenCommit(es, e, d);
    } else {
      NewCommit(es, e);
    }
  }

  lemma SeenCommit(es: seq<Event>, e: Event, d: Event) returns (i: nat)
    requires d in es && SameCommit(d, e)
    ensures i < |Deduped(es)| && SameCommit(Deduped(es)[i], e)
    ensures |Deduped(es + [e])| == |Deduped(es)| && SameCommit(Deduped(es + [e])[i], e)
    ensures forall j :: 0 <= j < |Deduped(es)| && j != i ==> Deduped(es + [e])[j] == Deduped(es)[j]
  {
    var sha := e.externalId;
    i := PlaceOf(ShaOf, es, sha);
    MergedKeepsSha();
    WithMembers(ShaOf, es, sha);
    assert d in Commits(es, sha);
    KeyHasOnePlace(ShaOf, Merged, es, sha);
    FoldHasKey(ShaOf, Merged, Commits(es, sha), sha);
    CoalescedSnocSeen(ShaOf, Merged, es, e, sha);
    var all := Commits(es, sha) + [e];
    FoldHasKey(ShaOf, Merged, all, sha);
  }
}
