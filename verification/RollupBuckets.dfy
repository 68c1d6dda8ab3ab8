/** What the order of the buckets decides: which of two buckets of one artifact id is
    kept, and which artifact stands for a merged commit set. */
module RollupBuckets {
  import opened Basics
  import opened Activity
  import opened Ordered
  import opened Coalesce
  import opened RollupKeys
  import opened Rollup
  import opened RollupConserve
  import opened RollupMerge
  import opened RollupTheorems
  import opened RollupInputs

  // ---- buckets come in order ----

  /** The keys of the buckets of unclaimed events, in order. */
  ghost function FreeKeys(es: seq<Event>, artifacts: seq<Artifact>): seq<OrphanKey> {
    BucketOrder(InIdOrder(Unclaimed(IndexById(es), artifacts)))
  }

  lemma RawOrphan(es: seq<Event>, artifacts: seq<Artifact>, reportDate: Day, j: nat) returns (k: OrphanKey)
    requires |artifacts| <= j < |RawGroups(es, artifacts, reportDate)|
    ensures j - |artifacts| < |FreeKeys(es, artifacts)| && k == FreeKeys(es, artifacts)[j - |artifacts|]
    ensures var all := InIdOrder(Unclaimed(IndexById(es), artifacts));
      k in BucketKeys(all) && RawGroups(es, artifacts, reportDate)[j] == OrphanGroup(all, k, reportDate)
  {
    ClaimedCount(IndexById(es), artifacts);
    var rest := Unclaimed(IndexById(es), artifacts);
    assert RawGroups(es, artifacts, reportDate)[j] == OrphanGroups(rest, reportDate)[j - |artifacts|];
    k := OrphanGroupAt(rest, reportDate, j - |artifacts|);
  }

  lemma OrphanGroupAt(rest: map<nat, Event>, reportDate: Day, i: nat) returns (k: OrphanKey)
    requires i < |OrphanGroups(rest, reportDate)|
    ensures i < |BucketOrder(InIdOrder(rest))| && k == BucketOrder(InIdOrder(rest))[i]
    ensures k in BucketKeys(InIdOrder(rest))
    ensures OrphanGroups(rest, reportDate)[i] == OrphanGroup(InIdOrder(rest), k, reportDate)
  {
    k := BucketOrder(InIdOrder(rest))[i];
    assert k in BucketOrder(InIdOrder(rest));
  }

  lemma OrphanBucket(es: seq<Event>, artifacts: seq<Artifact>, reportDate: Day, j: nat)
    requires |artifacts| <= j < |RawGroups(es, artifacts, reportDate)|
    ensures j - |artifacts| < |FreeKeys(es, artifacts)|
    ensures BucketOfArtifact(RawGroups(es, artifacts, reportDate)[j].artifact) ==
      FreeKeys(es, artifacts)[j - |artifacts|]
  {
    var k := RawOrphan(es, artifacts, reportDate, j);
    OrphanGroupShape(InIdOrder(Unclaimed(IndexById(es), artifacts)), k, reportDate);
  }

  lemma BucketsAscend(es: seq<Event>, artifacts: seq<Artifact>, reportDate: Day, i: nat, j: nat)
    requires |artifacts| <= i < j < |RawGroups(es, artifacts, reportDate)|
    ensures var raw := RawGroups(es, artifacts, reportDate);
      KeyLe(BucketOfArtifact(raw[i].artifact), BucketOfArtifact(raw[j].artifact))
  {
    OrphanBucket(es, artifacts, reportDate, i);
    OrphanBucket(es, artifacts, reportDate, j);
    KeyLeIsTotalOrder();
    AscendingAscends(KeyLe, BucketKeys(InIdOrder(Unclaimed(IndexById(es), artifacts))));
  }

  /** From `n` on the groups come in the order of their buckets. */
  ghost predicate BucketsInOrder(raw: seq<Group>, n: nat) {
    forall i, j :: n <= i < j < |raw| ==> KeyLe(BucketOfArtifact(raw[i].artifact), BucketOfArtifact(raw[j].artifact))
  }

  lemma RawBucketsInOrder(es: seq<Event>, artifacts: seq<Artifact>, reportDate: Day)
    ensures BucketsInOrder(RawGroups(es, artifacts, reportDate), |artifacts|)
  {
    var raw := RawGroups(es, artifacts, reportDate);
    forall i, j | |artifacts| <= i < j < |raw|
      ensures KeyLe(BucketOfArtifact(raw[i].artifact), BucketOfArtifact(raw[j].artifact))
    {
      BucketsAscend(es, artifacts, reportDate, i, j);
    }
  }

  // ---- unclaimed events outside the commit sets ----

  /** Another bucket of the same artifact id, by a later project, space or day. */
  predicate Follows(a: OrphanKey, b: OrphanKey) {
    match (a, b)
    case (IssueDay(s, i, p, d), IssueDay(s', i', p', d')) => s == s' && i == i' && d == d' && p != p' && StrLe(p, p')
    case (PageDay(s, q, p, d), PageDay(s', q', p', d')) => s == s' && q == q' && d == d' && p != p' && StrLe(p, p')
    case (MeetingDay(s, m, d), MeetingDay(s', m', d')) => s == s' && m == m' && d < d'
    case _ => false
  }

  lemma FollowsExactly(a: OrphanKey, b: OrphanKey)
    ensures Follows(a, b) <==> SyntheticId(a) == SyntheticId(b) && a != b && KeyLe(a, b)
  {
    IdsCollideExactly(a, b);
  }

  /** An event that no artifact claims, outside the commit sets, is in the output exactly
      when no unclaimed event has its issue and day under a later project, its page and
      day under a later space, or its meeting on a later day. */
  lemma FreeEventStaysExactly(es: seq<Event>, artifacts: seq<Artifact>, reportDate: Day, e: Event)
    requires DistinctIds(es) && e in es && Free(artifacts, e) && !OrphanKeyOf(e).RepoDay?
    ensures e in EventsOf(RolledUp(es, artifacts, reportDate)) <==>
      forall f :: f in es && Free(artifacts, f) ==> !Follows(OrphanKeyOf(e), OrphanKeyOf(f))
  {
    var raw := RawGroups(es, artifacts, reportDate);
    var keys := RawGroupsShape(es, artifacts, reportDate);
    var j := HomeOf(es, artifacts, raw, keys, e);
    assert j >= |artifacts|;
    RawBucketsInOrder(es, artifacts, reportDate);
    BucketAt(es, artifacts, raw, keys, j);
    AloneEventKept(raw, j, e);
    SortKeepsEvents(MergedSets(raw));
    forall i | j < i < |raw| && !IsSet(raw[i]) && raw[i].artifact.id == raw[j].artifact.id
      ensures exists f :: f in es && Free(artifacts, f) && Follows(OrphanKeyOf(e), OrphanKeyOf(f))
    {
      var f := LaterBucketFollows(es, artifacts, raw, keys, j, i);
    }
    forall f | f in es && Free(artifacts, f) && Follows(OrphanKeyOf(e), OrphanKeyOf(f))
      ensures exists i :: j < i < |raw| && !IsSet(raw[i]) && raw[i].artifact.id == raw[j].artifact.id
    {
      var i := FollowingBucketIsLater(es, artifacts, raw, keys, j, f);
    }
  }

  lemma LaterBucketFollows(es: seq<Event>, artifacts: seq<Artifact>, raw: seq<Group>, keys: seq<OrphanKey>,
                           j: nat, i: nat)
    returns (f: Event)
    requires Layout(es, artifacts, raw, keys) && BucketsInOrder(raw, |artifacts|)
    requires |artifacts| <= j < i < |raw|
    requires raw[i].artifact.id == raw[j].artifact.id
    ensures f in es && Free(artifacts, f) && Follows(keys[j - |artifacts|], OrphanKeyOf(f))
  {
    BucketAt(es, artifacts, raw, keys, j);
    BucketAt(es, artifacts, raw, keys, i);
    f :| f in es && Free(artifacts, f) && OrphanKeyOf(f) == keys[i - |artifacts|];
    FollowsExactly(keys[j - |artifacts|], OrphanKeyOf(f));
  }

  lemma FollowingBucketIsLater(es: seq<Event>, artifacts: seq<Artifact>, raw: seq<Group>, keys: seq<OrphanKey>,
                               j: nat, f: Event)
    returns (i: nat)
    requires Layout(es, artifacts, raw, keys) && BucketsInOrder(raw, |artifacts|)
    requires |artifacts| <= j < |raw| && f in es && Free(artifacts, f)
    requires Follows(keys[j - |artifacts|], OrphanKeyOf(f))
    ensures j < i < |raw| && !IsSet(raw[i]) && raw[i].artifact.id == raw[j].artifact.id
  {
    i := FreeBucketAt(es, artifacts, raw, keys, f);
    i := |artifacts| + i;
    assert i < |raw|;
    FollowsAt(es, artifacts, raw, keys, j, i);
    if i < j {
      BucketAt(es, artifacts, raw, keys, j);
      BucketAt(es, artifacts, raw, keys, i);
      }
  }

  lemma FollowsAt(es: seq<Event>, artifacts: seq<Artifact>, raw: seq<Group>, keys: seq<OrphanKey>, j: nat, i: nat)
    requires Layout(es, artifacts, raw, keys) && |artifacts| <= j < |raw| && |artifacts| <= i < |raw|
    requires Follows(keys[j - |artifacts|], keys[i - |artifacts|])
    ensures i != j && !IsSet(raw[i]) && raw[i].artifact.id == raw[j].artifact.id
    ensures !KeyLe(keys[i - |artifacts|], keys[j - |artifacts|])
  {
    BucketAt(es, artifacts, raw, keys, j);
    BucketAt(es, artifacts, raw, keys, i);
    FollowsIsStrict(keys[j - |artifacts|], keys[i - |artifacts|]);
  }

  lemma FollowsIsStrict(a: OrphanKey, b: OrphanKey)
    requires Follows(a, b)
    ensures SyntheticId(a) == SyntheticId(b) && a != b && !KeyLe(b, a) && !b.RepoDay?
  {
    FollowsExactly(a, b);
    KeyLeIsOrder(a, b, b);
  }

  // ---- the artifact of a commit set ----

  lemma {:induction false} FirstOfKey(gs: seq<Group>, k: SetKey) returns (m: nat)
    requires With(SetKeyOf, gs, k) != []
    ensures m < |gs| && gs[m] == With(SetKeyOf, gs, k)[0] && SetKeyOf(gs[m]) == Some(k)
    ensures forall i :: 0 <= i < m ==> SetKeyOf(gs[i]) != Some(k)
  {
    if SetKeyOf(gs[0]) == Some(k) {
      m := 0;
    } else {
      m := FirstOfKey(gs[1..], k);
      assert forall i :: 0 < i <= m ==> gs[i] == gs[1..][i - 1];
      m := m + 1;
    }
  }

  /** A commit set of the repository and day. */
  predicate SetOf(a: Artifact, path: string, day: Day) {
    a.payload.CommitSet? && a.payload.repoPath == path && a.payload.date == day
  }

  /** An unclaimed event of the repository and day. */
  predicate FreeIn(artifacts: seq<Artifact>, e: Event, path: string, day: Day) {
    Free(artifacts, e) && OrphanKeyOf(e).RepoDay? && OrphanKeyOf(e).path == path && OrphanKeyOf(e).day == day
  }

  lemma FirstSetOf(es: seq<Event>, artifacts: seq<Artifact>, reportDate: Day, g: Group, path: string, day: Day)
    returns (m: nat)
    requires g in RolledUp(es, artifacts, reportDate) && SetOf(g.artifact, path, day)
    ensures var raw := RawGroups(es, artifacts, reportDate);
      && m < |raw| && g.artifact == raw[m].artifact
      && forall i :: 0 <= i < m ==> !SetOf(raw[i].artifact, path, day)
  {
    var raw := RawGroups(es, artifacts, reportDate);
    SortMembers(GroupLe, MergedSets(raw));
    var i :| 0 <= i < |MergedSets(raw)| && MergedSets(raw)[i] == g;
    MergeKeepsKey();
    KeyedIsAtItsPlace(SetKeyOf, MergedGroup, raw, i);
    var k := RepoSet(path, day);
    MergedAt(raw, k);
    FoldIsOneAbsorb(With(SetKeyOf, raw, k));
    m := FirstOfKey(raw, k);
  }

  /** A commit set of the output has the first artifact of its repository and day; and
      without one, the artifact synthesized for the least source that has unclaimed
      events there. */
  lemma CommitSetArtifactExactly(es: seq<Event>, artifacts: seq<Artifact>, reportDate: Day, g: Group, path: string,
                                 day: Day)
    requires DistinctIds(es) && g in RolledUp(es, artifacts, reportDate) && SetOf(g.artifact, path, day)
    ensures (exists i :: 0 <= i < |artifacts| && SetOf(artifacts[i], path, day)) ==>
      exists i :: 0 <= i < |artifacts| && g.artifact == artifacts[i]
                  && forall j :: 0 <= j < i ==> !SetOf(artifacts[j], path, day)
    ensures (forall i :: 0 <= i < |artifacts| ==> !SetOf(artifacts[i], path, day)) ==>
      && g.artifact.id == SyntheticId(RepoDay(g.artifact.sourceId, path, day))
      && (exists e :: e in es && FreeIn(artifacts, e, path, day) && e.sourceId == g.artifact.sourceId)
      && forall e :: e in es && FreeIn(artifacts, e, path, day) ==> g.artifact.sourceId <= e.sourceId
  {
    var raw := RawGroups(es, artifacts, reportDate);
    var keys := RawGroupsShape(es, artifacts, reportDate);
    var m := FirstSetOf(es, artifacts, reportDate, g, path, day);
    forall i | 0 <= i < |artifacts| ensures raw[i].artifact == artifacts[i] { ArtifactAt(es, artifacts, raw, keys, i); }
    if forall i :: 0 <= i < |artifacts| ==> !SetOf(artifacts[i], path, day) {
      RawBucketsInOrder(es, artifacts, reportDate);
      FirstBucketOf(es, artifacts, raw, keys, m, path, day);
    }
  }

  lemma FirstBucketOf(es: seq<Event>, artifacts: seq<Artifact>, raw: seq<Group>, keys: seq<OrphanKey>, m: nat,
                      path: string, day: Day)
    requires Layout(es, artifacts, raw, keys) && BucketsInOrder(raw, |artifacts|)
    requires |artifacts| <= m < |raw|
    requires SetOf(raw[m].artifact, path, day)
    requires forall i :: 0 <= i < m ==> !SetOf(raw[i].artifact, path, day)
    ensures var a := raw[m].artifact;
      && a.id == SyntheticId(RepoDay(a.sourceId, path, day))
      && (exists e :: e in es && FreeIn(artifacts, e, path, day) && e.sourceId == a.sourceId)
      && forall e :: e in es && FreeIn(artifacts, e, path, day) ==> a.sourceId <= e.sourceId
  {
    BucketAt(es, artifacts, raw, keys, m);
    var e :| e in es && Free(artifacts, e) && OrphanKeyOf(e) == keys[m - |artifacts|];
    assert FreeIn(artifacts, e, path, day) && e.sourceId == raw[m].artifact.sourceId;
    forall f | f in es && FreeIn(artifacts, f, path, day) ensures raw[m].artifact.sourceId <= f.sourceId {
      LeastSource(es, artifacts, raw, keys, m, path, day, f);
    }
  }

  lemma LeastSource(es: seq<Event>, artifacts: seq<Artifact>, raw: seq<Group>, keys: seq<OrphanKey>, m: nat,
                    path: string, day: Day, f: Event)
    requires Layout(es, artifacts, raw, keys) && BucketsInOrder(raw, |artifacts|)
    requires |artifacts| <= m < |raw|
    requires SetOf(raw[m].artifact, path, day)
    requires forall i :: 0 <= i < m ==> !SetOf(raw[i].artifact, path, day)
    requires f in es && FreeIn(artifacts, f, path, day)
    ensures raw[m].artifact.sourceId <= f.sourceId
  {
    var j := FreeBucketAt(es, artifacts, raw, keys, f);
    var i := |artifacts| + j;
    BucketAt(es, artifacts, raw, keys, i);
    BucketAt(es, artifacts, raw, keys, m);
    assert SetOf(raw[i].artifact, path, day);
  }
}
