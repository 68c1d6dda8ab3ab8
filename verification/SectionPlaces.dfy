/** From an event to the section its bullet is shown under. */
module SectionPlaces {
  import opened Basics
  import opened Activity
  import opened Coalesce
  import opened RollupKeys
  import opened Rollup
  import opened RollupConserve
  import opened RollupMerge
  import opened RollupInputs
  import opened RollupBuckets
  import opened RollupDetails
  import opened Sections
  import opened Render
  import opened RenderDetails

  // ---- the output group of an event ----

  /** A group of the output outside the commit sets is as it was before the merge. */
  lemma GroupBeforeMerge(es: seq<Event>, artifacts: seq<Artifact>, reportDate: Day, g: Group, e: Event)
    returns (keys: seq<OrphanKey>, j: nat)
    requires DistinctIds(es) && g in RolledUp(es, artifacts, reportDate) && e in g.events
    ensures var raw := RawGroups(es, artifacts, reportDate);
      && RawShape(es, artifacts, raw, keys) && j < |raw| && e in raw[j].events && e in es
      && (IsSet(g) <==> IsSet(raw[j])) && (!IsSet(g) ==> g == raw[j])
  {
    var raw := RawGroups(es, artifacts, reportDate);
    keys := RawGroupsShape(es, artifacts, reportDate);
    SortMembers(GroupLe, MergedSets(raw));
    var i :| 0 <= i < |MergedSets(raw)| && MergedSets(raw)[i] == g;
    j := MergedEventSource(raw, i, e);
    if !IsSet(g) {
      var k := SetKeyOf(g).value;
      MergedAt(raw, k);
      FoldTakesLast(With(SetKeyOf, raw, k));
      j := LaterIsLast(raw, k);
    }
    EventsOfMembers(raw, e);
    assert e in multiset(es);
  }

  lemma HomeIs(es: seq<Event>, artifacts: seq<Artifact>, raw: seq<Group>, keys: seq<OrphanKey>, j: nat, e: Event)
    requires DistinctIds(es) && RawShape(es, artifacts, raw, keys) && j < |raw| && e in raw[j].events && e in es
    ensures j < |artifacts| ==> FirstClaims(artifacts, j, e)
    ensures j >= |artifacts| ==> OrphanKeyOf(e) == keys[j - |artifacts|] && Free(artifacts, e)
  {
    var home := HomeOf(es, artifacts, raw, keys, e);
    InOneGroup(raw, home, j, e);
  }

  /** A bucket's group has exactly the free events of the bucket. */
  lemma BucketHolds(es: seq<Event>, artifacts: seq<Artifact>, raw: seq<Group>, keys: seq<OrphanKey>, j: nat, f: Event)
    requires DistinctIds(es) && RawShape(es, artifacts, raw, keys) && |artifacts| <= j < |raw|
    ensures f in raw[j].events <==> f in es && Free(artifacts, f) && OrphanKeyOf(f) == keys[j - |artifacts|]
  {
    if f in raw[j].events {
      EventsOfMembers(raw, f);
      assert f in multiset(es);
      HomeIs(es, artifacts, raw, keys, j, f);
    }
    if f in es && Free(artifacts, f) && OrphanKeyOf(f) == keys[j - |artifacts|] {
      var home := HomeOf(es, artifacts, raw, keys, f);
      assert home >= |artifacts|;
    }
  }

  /** The artifact is the one synthesized for its bucket from the group's events. */
  predicate Synthesized(g: Group, reportDate: Day) {
    g.events != [] && g.artifact == Synthesize(BucketOfArtifact(g.artifact), g.events, reportDate)
  }

  lemma OrphanIsSynthesized(all: seq<Event>, k: OrphanKey, reportDate: Day)
    requires k in BucketKeys(all)
    ensures Synthesized(OrphanGroup(all, k, reportDate), reportDate)
  {
    BucketIsNotEmpty(all, k);
    SynthesizeKeepsBucket(k, SortedEvents(Bucket(all, k)), reportDate);
  }

  lemma BucketIsSynthesized(es: seq<Event>, artifacts: seq<Artifact>, reportDate: Day, j: nat)
    requires |artifacts| <= j < |RawGroups(es, artifacts, reportDate)|
    ensures Synthesized(RawGroups(es, artifacts, reportDate)[j], reportDate)
  {
    var k := RawOrphan(es, artifacts, reportDate, j);
    OrphanIsSynthesized(InIdOrder(Unclaimed(IndexById(es), artifacts)), k, reportDate);
  }

  /** An unclaimed event of a commit bucket is in a commit set; any other is with
      exactly the unclaimed events of its bucket, under the bucket's own artifact. */
  lemma FreeEventGroup(es: seq<Event>, artifacts: seq<Artifact>, reportDate: Day, g: Group, e: Event)
    requires DistinctIds(es) && g in RolledUp(es, artifacts, reportDate) && e in g.events && Free(artifacts, e)
    ensures g.artifact.payload.CommitSet? <==> OrphanKeyOf(e).RepoDay?
    ensures !OrphanKeyOf(e).RepoDay? ==>
      && BucketOfArtifact(g.artifact) == OrphanKeyOf(e) && Synthesized(g, reportDate)
      && forall f :: f in g.events <==> f in es && Free(artifacts, f) && OrphanKeyOf(f) == OrphanKeyOf(e)
  {
    var raw := RawGroups(es, artifacts, reportDate);
    var keys, j := GroupBeforeMerge(es, artifacts, reportDate, g, e);
    HomeIs(es, artifacts, raw, keys, j, e);
    assert j >= |artifacts|;
    BucketAt(es, artifacts, raw, keys, j);
    BucketIsSynthesized(es, artifacts, reportDate, j);
    forall f ensures f in raw[j].events <==> f in es && Free(artifacts, f) && OrphanKeyOf(f) == OrphanKeyOf(e) {
      BucketHolds(es, artifacts, raw, keys, j, f);
    }
  }

  /** An event an artifact claims first is in a commit set if the artifact is one,
      and otherwise with exactly the events the artifact claims first. */
  lemma ClaimedEventGroup(es: seq<Event>, artifacts: seq<Artifact>, reportDate: Day, g: Group, e: Event, i: nat)
    requires DistinctIds(es) && g in RolledUp(es, artifacts, reportDate) && e in g.events
    requires i < |artifacts| && FirstClaims(artifacts, i, e)
    ensures g.artifact.payload.CommitSet? <==> artifacts[i].payload.CommitSet?
    ensures !artifacts[i].payload.CommitSet? ==>
      g.artifact == artifacts[i] && forall f :: f in g.events <==> f in es && FirstClaims(artifacts, i, f)
  {
    var raw := RawGroups(es, artifacts, reportDate);
    var keys, j := GroupBeforeMerge(es, artifacts, reportDate, g, e);
    HomeIs(es, artifacts, raw, keys, j, e);
    assert j == i;
    ArtifactAt(es, artifacts, raw, keys, i);
    forall f ensures f in raw[i].events <==> f in es && FirstClaims(artifacts, i, f) {
      if f in raw[i].events {
        EventsOfMembers(raw, f);
        assert f in multiset(es);
      }
    }
  }

  // ---- the section ----

  predicate StrayComment(e: Event) { e.kind == ConfluenceComment && e.metadata.unattached }

  /** The bullet is one of those that stand for the event. */
  ghost predicate Shows(p: Placed, e: Event) { e.id in p.evidence.eventIds }

  /** A bullet that stands for an event stands for its group. */
  lemma BulletGroup(ctx: Context, es: seq<Event>, artifacts: seq<Artifact>, reportDate: Day, e: Event, p: Placed)
    returns (g: Group)
    requires DistinctIds(es) && e in es && Pieces(ctx, RolledUp(es, artifacts, reportDate)).Some?
    requires p in Pieces(ctx, RolledUp(es, artifacts, reportDate)).value && Shows(p, e)
    ensures g in RolledUp(es, artifacts, reportDate) && e in g.events && InRightSection(g, p.section)
  {
    var out := RolledUp(es, artifacts, reportDate);
    var n, i := PieceSource(ctx, out, p);
    g := out[n];
    var k :| 0 <= k < |g.events| && g.events[k].id == e.id;
    RollUpPartition(es, artifacts, reportDate);
    EventsOfMembers(out, g.events[k]);
    assert g.events[k] in multiset(es) && g.events[k] in es;
  }

  /** The bullet of an event that no artifact claims is shown by its kind: commits and
      issues of a forge under commits, merge requests with a readable id under merge
      requests, and those without under commits. */
  lemma FreeEventSection(ctx: Context, es: seq<Event>, artifacts: seq<Artifact>, reportDate: Day, e: Event, p: Placed)
    requires DistinctIds(es) && e in es && Free(artifacts, e)
    requires Pieces(ctx, RolledUp(es, artifacts, reportDate)).Some?
    requires p in Pieces(ctx, RolledUp(es, artifacts, reportDate)).value && Shows(p, e)
    ensures PlainKind(e.kind) || GitHubIssueKinds(e.kind) ==> p.section == Commits
    ensures JiraKind(e.kind) ==> p.section == JiraIssues
    ensures e.kind == OutlookMeetingAttended ==> p.section == Meetings
    ensures GitLabMrKind(e.kind) ==> p.section == if GitLabId(e) then MergeRequests else Commits
    ensures GitHubPrKind(e.kind) ==> p.section == if GitHubId(e) then MergeRequests else Commits
    ensures PageKind(e.kind) ==> p.section == UnlinkedActivity || p.section == ConfluencePages
    ensures PageKind(e.kind) ==>
      (p.section == UnlinkedActivity <==>
         forall f :: f in es && Free(artifacts, f) && OrphanKeyOf(f) == OrphanKeyOf(e) ==> StrayComment(f))
  {
    var g := BulletGroup(ctx, es, artifacts, reportDate, e, p);
    FreeEventGroup(es, artifacts, reportDate, g, e);
    BucketByKind(e);
    MergeRequestBucket(e);
  }

  /** The bullet of an event is shown by the payload of the artifact that claims the
      event first, and a page's bullet by what else the artifact claims first. */
  lemma ClaimedEventSection(ctx: Context, es: seq<Event>, artifacts: seq<Artifact>, reportDate: Day, e: Event,
                            p: Placed, i: nat)
    requires DistinctIds(es) && e in es && i < |artifacts| && FirstClaims(artifacts, i, e)
    requires Pieces(ctx, RolledUp(es, artifacts, reportDate)).Some?
    requires p in Pieces(ctx, RolledUp(es, artifacts, reportDate)).value && Shows(p, e)
    ensures artifacts[i].payload.CommitSet? ==> p.section == Commits
    ensures artifacts[i].payload.JiraIssuePayload? ==> p.section == JiraIssues
    ensures artifacts[i].payload.MergeRequest? ==> p.section == MergeRequests
    ensures artifacts[i].payload.Meeting? ==> p.section == Meetings
    ensures artifacts[i].payload.ConfluencePagePayload? ==>
      p.section == UnlinkedActivity || p.section == ConfluencePages
    ensures artifacts[i].payload.ConfluencePagePayload? ==>
      (p.section == UnlinkedActivity <==> forall f :: f in es && FirstClaims(artifacts, i, f) ==> StrayComment(f))
  {
    var g := BulletGroup(ctx, es, artifacts, reportDate, e, p);
    ClaimedEventGroup(es, artifacts, reportDate, g, e, i);
  }

  /** An event of the output has such a bullet, and it is shown under that section and
      no other. */
  lemma EventIsShown(ctx: Context, es: seq<Event>, artifacts: seq<Artifact>, reportDate: Day, e: Event)
    returns (p: Placed)
    requires Pieces(ctx, RolledUp(es, artifacts, reportDate)).Some?
    requires e in EventsOf(RolledUp(es, artifacts, reportDate))
    ensures p in Pieces(ctx, RolledUp(es, artifacts, reportDate)).value && Shows(p, e)
    ensures var report := Report(ctx, RolledUp(es, artifacts, reportDate));
      && (exists s :: s in report && s.section == p.section)
      && forall s :: s in report ==> (p.bullet in s.bullets <==> s.section == p.section)
  {
    var out := RolledUp(es, artifacts, reportDate);
    EventsOfMembers(out, e);
    var n :| 0 <= n < |out| && e in out[n].events;
    var k :| 0 <= k < |out[n].events| && out[n].events[k] == e;
    var i := if OneEach(out[n].artifact.payload) then k else 0;
    p := PieceExists(ctx, out, n, i);
    if !OneEach(out[n].artifact.payload) { assert p.evidence.eventIds[k] == e.id; }
    ShownUnderItsSection(ctx, out, p);
  }
}
