/** The final order of groups: when the comparison is an order, and the output
    sorted by it. */
module RollupOrder {
  import opened Basics
  import opened Activity
  import opened Coalesce
  import opened RollupKeys
  import opened Rollup
  import opened RollupConserve
  import opened RollupMerge
  import opened RollupTheorems
  import opened RollupInputs

  /** Artifacts of one kind agree on whether they are meetings. */
  predicate Alike(a: Artifact, b: Artifact) { a.kind == b.kind ==> (a.payload.Meeting? <==> b.payload.Meeting?) }

  lemma KindTokenIsInjective(a: ArtifactKind, b: ArtifactKind)
    requires KindToken(a) == KindToken(b)
    ensures a == b
  {
    assert KindToken(a)[0] == KindToken(b)[0] && |KindToken(a)| == |KindToken(b)|;
  }

  lemma IdLeIsOrder(a: ArtifactId, b: ArtifactId, c: ArtifactId)
    ensures IdLe(a, b) || IdLe(b, a)
    ensures IdLe(a, b) && IdLe(b, a) ==> a == b
    ensures IdLe(a, b) && IdLe(b, c) ==> IdLe(a, c)
  {
    StrLeIsOrder(KindToken(a.kind), KindToken(b.kind), KindToken(c.kind));
    StrLeIsOrder(a.externalId, b.externalId, c.externalId);
    if KindToken(a.kind) == KindToken(b.kind) { KindTokenIsInjective(a.kind, b.kind); }
    if KindToken(b.kind) == KindToken(c.kind) { KindTokenIsInjective(b.kind, c.kind); }
    if KindToken(a.kind) == KindToken(c.kind) { KindTokenIsInjective(a.kind, c.kind); }
  }

  /** Groups whose artifacts are alike are ordered totally, up to their ids. */
  lemma GroupLeIsOrder(a: Group, b: Group, c: Group)
    requires Alike(a.artifact, b.artifact) && Alike(b.artifact, c.artifact) && Alike(a.artifact, c.artifact)
    ensures GroupLe(a, b) || GroupLe(b, a)
    ensures GroupLe(a, b) && GroupLe(b, a) ==> a.artifact.id == b.artifact.id
    ensures GroupLe(a, b) && GroupLe(b, c) ==> GroupLe(a, c)
  {
    StrLeIsOrder(KindToken(a.artifact.kind), KindToken(b.artifact.kind), KindToken(c.artifact.kind));
    StrLeIsOrder(a.artifact.externalId, b.artifact.externalId, c.artifact.externalId);
    StrLeIsOrder(KindToken(b.artifact.kind), KindToken(c.artifact.kind), KindToken(a.artifact.kind));
    StrLeIsOrder(b.artifact.externalId, c.artifact.externalId, a.artifact.externalId);
    IdLeIsOrder(a.artifact.id, b.artifact.id, c.artifact.id);
    if KindToken(a.artifact.kind) == KindToken(b.artifact.kind) {
      KindTokenIsInjective(a.artifact.kind, b.artifact.kind);
    }
    if KindToken(b.artifact.kind) == KindToken(c.artifact.kind) {
      KindTokenIsInjective(b.artifact.kind, c.artifact.kind);
    }
    if KindToken(a.artifact.kind) == KindToken(c.artifact.kind) {
      KindTokenIsInjective(a.artifact.kind, c.artifact.kind);
    }
  }

  lemma {:induction false} PrefixIsLess(a: string, b: string)
    ensures StrLe(a, a + b)
  {
    if a != "" {
      PrefixIsLess(a[1..], b);
      assert (a + b)[1..] == a[1..] + b;
    }
  }

  function MeetingGroup(kind: ArtifactKind, id: ArtifactId, externalId: string, start: int): Group {
    Group(Artifact(id, 0, kind, externalId, Meeting(externalId, "", start, start, 0, []), 0), [])
  }

  /** Around any group that is not a meeting two meetings of its kind fit that show
      the comparison is not transitive. */
  lemma MeetingsBreakOrder(b: Group) returns (a: Group, c: Group)
    requires !b.artifact.payload.Meeting?
    ensures a.artifact.kind == b.artifact.kind == c.artifact.kind && a.artifact.payload.Meeting?
    ensures c.artifact.payload.Meeting?
    ensures GroupLe(a, b) && GroupLe(b, c) && !GroupLe(a, c)
  {
    var (kind, id, x) := (b.artifact.kind, b.artifact.id, b.artifact.externalId);
    a := MeetingGroup(kind, id, "", 2);
    c := MeetingGroup(kind, id, x + "!", 1);
    PrefixIsLess(x, "!");
    assert |x + "!"| != |x|;
    IdLeIsOrder(id, id, id);
  }

  /** The groups whose kind and sort of payload a connector may produce. */
  predicate Allowed(allowed: (ArtifactKind, bool) -> bool, g: Group) {
    allowed(g.artifact.kind, g.artifact.payload.Meeting?)
  }

  ghost predicate TransitiveOn(allowed: (ArtifactKind, bool) -> bool) {
    forall a, b, c ::
      Allowed(allowed, a) && Allowed(allowed, b) && Allowed(allowed, c) && GroupLe(a, b) && GroupLe(b, c) ==>
        GroupLe(a, c)
  }

  /** The comparison is transitive on all groups a set of kinds and payloads admits
      exactly when no kind admits both meetings and other payloads. */
  lemma GroupOrderExactly(allowed: (ArtifactKind, bool) -> bool)
    ensures TransitiveOn(allowed) <==> forall kind :: !(allowed(kind, true) && allowed(kind, false))
  {
    if kind :| allowed(kind, true) && allowed(kind, false) {
      var b := Group(Artifact(ArtifactId(0, kind, ""), 0, kind, "", JiraIssuePayload("", "", 0, []), 0), []);
      var a, c := MeetingsBreakOrder(b);
      assert Allowed(allowed, a) && Allowed(allowed, b) && Allowed(allowed, c);
    } else {
      forall a, b, c
        | Allowed(allowed, a) && Allowed(allowed, b) && Allowed(allowed, c) && GroupLe(a, b) && GroupLe(b, c)
        ensures GroupLe(a, c)
      {
        AdmittedAlike(allowed, a, b);
        AdmittedAlike(allowed, b, c);
        AdmittedAlike(allowed, a, c);
        GroupLeIsOrder(a, b, c);
      }
    }
  }

  lemma AdmittedAlike(allowed: (ArtifactKind, bool) -> bool, a: Group, b: Group)
    requires Allowed(allowed, a) && Allowed(allowed, b) && forall kind :: !(allowed(kind, true) && allowed(kind, false))
    ensures Alike(a.artifact, b.artifact)
  {
  }

  // ---- the output ----

  /** The artifacts are alike, among themselves and with the free buckets. */
  ghost predicate KindsMatch(es: seq<Event>, artifacts: seq<Artifact>) {
    && (forall i, j :: 0 <= i < |artifacts| && 0 <= j < |artifacts| ==> Alike(artifacts[i], artifacts[j]))
    && (forall i, e :: 0 <= i < |artifacts| && e in es && Free(artifacts, e) ==>
         MatchesBucket(artifacts[i], OrphanKeyOf(e)))
  }

  predicate MatchesBucket(a: Artifact, k: OrphanKey) {
    a.kind == SyntheticId(k).kind ==> (a.payload.Meeting? <==> k.MeetingDay?)
  }

  /** Artifacts that are meetings exactly by kind match everything. */
  lemma AgreeingKindsMatch(es: seq<Event>, artifacts: seq<Artifact>)
    requires forall i :: 0 <= i < |artifacts| ==>
      (artifacts[i].kind.OutlookMeetingKind? <==> artifacts[i].payload.Meeting?)
    ensures KindsMatch(es, artifacts)
  {
  }

  /** The key of a bucket of unclaimed events is that of a free event. */
  lemma OrphanKeySource(es: seq<Event>, artifacts: seq<Artifact>, k: OrphanKey)
    requires k in BucketOrder(InIdOrder(Unclaimed(IndexById(es), artifacts)))
    ensures FreeKey(es, artifacts, k)
  {
    var rest := Unclaimed(IndexById(es), artifacts);
    IndexKeys(es);
    UnclaimedWhere(IndexById(es), artifacts);
    ClaimsConserve(IndexById(es), artifacts);
    InIdOrderIsTheValues(rest);
    var e :| e in InIdOrder(rest) && OrphanKeyOf(e) == k;
    assert e in multiset(InIdOrder(rest)) && e in rest.Values;
  }

  lemma ClaimedSource(es: seq<Event>, artifacts: seq<Artifact>, g: Group) returns (source: Source)
    requires g in ClaimedGroups(IndexById(es), artifacts)
    ensures ComesFrom(es, artifacts, g, source)
  {
    ClaimedCount(IndexById(es), artifacts);
    var i :| 0 <= i < |artifacts| && ClaimedGroups(IndexById(es), artifacts)[i] == g;
    source := OfArtifact(i);
  }

  lemma OrphanSource(es: seq<Event>, artifacts: seq<Artifact>, reportDate: Day, g: Group) returns (source: Source)
    requires g in OrphanGroups(Unclaimed(IndexById(es), artifacts), reportDate)
    ensures ComesFrom(es, artifacts, g, source)
  {
    var all := InIdOrder(Unclaimed(IndexById(es), artifacts));
    var i :| 0 <= i < |BucketOrder(all)| && OrphanGroup(all, BucketOrder(all)[i], reportDate) == g;
    var k := BucketOrder(all)[i];
    assert k in BucketOrder(all);
    OrphanKeySource(es, artifacts, k);
    OrphanGroupShape(all, k, reportDate);
    source := OfBucket(k);
  }

  lemma RawSource(es: seq<Event>, artifacts: seq<Artifact>, reportDate: Day, g: Group) returns (source: Source)
    requires g in RawGroups(es, artifacts, reportDate)
    ensures ComesFrom(es, artifacts, g, source)
  {
    if g in ClaimedGroups(IndexById(es), artifacts) {
      source := ClaimedSource(es, artifacts, g);
    } else {
      source := OrphanSource(es, artifacts, reportDate, g);
    }
  }

  lemma SourcesAlike(es: seq<Event>, artifacts: seq<Artifact>, g: Group, a: Source, h: Group, b: Source)
    requires KindsMatch(es, artifacts) && ComesFrom(es, artifacts, g, a) && ComesFrom(es, artifacts, h, b)
    ensures Alike(g.artifact, h.artifact)
  {
    match (a, b)
    case (OfArtifact(i), OfArtifact(j)) =>
    case (OfArtifact(i), OfBucket(k)) => ArtifactMatchesBucket(es, artifacts, i, k);
    case (OfBucket(k), OfArtifact(j)) => ArtifactMatchesBucket(es, artifacts, j, k);
    case (OfBucket(k), OfBucket(l)) =>
  }

  lemma ArtifactMatchesBucket(es: seq<Event>, artifacts: seq<Artifact>, i: nat, k: OrphanKey)
    requires KindsMatch(es, artifacts) && i < |artifacts| && FreeKey(es, artifacts, k)
    ensures MatchesBucket(artifacts[i], k)
  {
  }

  lemma RawGroupsAlike(es: seq<Event>, artifacts: seq<Artifact>, reportDate: Day, a: Group, b: Group)
    requires KindsMatch(es, artifacts) && a in RawGroups(es, artifacts, reportDate)
    requires b in RawGroups(es, artifacts, reportDate)
    ensures Alike(a.artifact, b.artifact)
  {
    var s := RawSource(es, artifacts, reportDate, a);
    var t := RawSource(es, artifacts, reportDate, b);
    SourcesAlike(es, artifacts, a, s, b, t);
  }

  lemma MergedGroupsAlike(raw: seq<Group>, a: Group, b: Group)
    requires forall i, j :: 0 <= i < |raw| && 0 <= j < |raw| ==> Alike(raw[i].artifact, raw[j].artifact)
    requires a in MergedSets(raw) && b in MergedSets(raw)
    ensures Alike(a.artifact, b.artifact)
  {
    var merged := MergedSets(raw);
    var i :| 0 <= i < |merged| && merged[i] == a;
    var j :| 0 <= j < |merged| && merged[j] == b;
    var m := MergedArtifactSource(raw, i);
    var n := MergedArtifactSource(raw, j);
  }

  lemma AlikeIsTotal(gs: seq<Group>)
    requires forall a, b :: a in gs && b in gs ==> Alike(a.artifact, b.artifact)
    ensures TotalOn(GroupLe, gs)
  {
    forall a, b | a in gs && b in gs ensures GroupLe(a, b) || GroupLe(b, a) { GroupLeIsOrder(a, b, b); }
    forall a, b, c | a in gs && b in gs && c in gs && GroupLe(a, b) && GroupLe(b, c) ensures GroupLe(a, c) {
      GroupLeIsOrder(a, b, c);
    }
  }

  /** The output is in order whenever artifacts and buckets of one kind agree on
      whether they are meetings. */
  lemma RollUpSorts(es: seq<Event>, artifacts: seq<Artifact>, reportDate: Day)
    requires KindsMatch(es, artifacts)
    ensures SortedBy(GroupLe, RolledUp(es, artifacts, reportDate))
  {
    var raw := RawGroups(es, artifacts, reportDate);
    forall i, j | 0 <= i < |raw| && 0 <= j < |raw| ensures Alike(raw[i].artifact, raw[j].artifact) {
      RawGroupsAlike(es, artifacts, reportDate, raw[i], raw[j]);
    }
    forall a, b | a in MergedSets(raw) && b in MergedSets(raw) ensures Alike(a.artifact, b.artifact) {
      MergedGroupsAlike(raw, a, b);
    }
    AlikeIsTotal(MergedSets(raw));
    SortSorts(GroupLe, MergedSets(raw));
  }

  /** Local-git artifacts, or none, always give an ordered output. */
  lemma LocalGitSorts(es: seq<Event>, artifacts: seq<Artifact>, reportDate: Day)
    requires forall i :: 0 <= i < |artifacts| ==> IsLocalGit(artifacts[i])
    ensures SortedBy(GroupLe, RolledUp(es, artifacts, reportDate))
  {
    AgreeingKindsMatch(es, artifacts);
    RollUpSorts(es, artifacts, reportDate);
  }

  // ---- the order, field by field ----

  lemma EventLeIsTotal(es: seq<Event>)
    ensures TotalOn(EventLe, es)
  {
    forall a, b, c
      ensures EventLe(a, b) || EventLe(b, a)
      ensures EventLe(a, b) && EventLe(b, c) ==> EventLe(a, c)
    {
      StrLeIsOrder(a.externalId, b.externalId, c.externalId);
      StrLeIsOrder(b.externalId, c.externalId, a.externalId);
    }
  }

  ghost predicate EventsSorted(g: Group) { SortedBy(EventLe, g.events) }

  lemma SortedGroup(a: Artifact, es: seq<Event>)
    ensures EventsSorted(Group(a, SortedEvents(es)))
  {
    EventLeIsTotal(es);
    SortSorts(EventLe, es);
  }

  lemma {:induction false} ClaimedAreSorted(m: map<nat, Event>, artifacts: seq<Artifact>)
    ensures forall g :: g in ClaimedGroups(m, artifacts) ==> EventsSorted(g)
    decreases artifacts
  {
    if artifacts != [] {
      var ids := artifacts[0].payload.eventIds;
      SortedGroup(artifacts[0], Claim(m, ids));
      ClaimedAreSorted(m - IdSet(ids), artifacts[1..]);
    }
  }

  lemma OrphansAreSorted(rest: map<nat, Event>, reportDate: Day)
    ensures forall g :: g in OrphanGroups(rest, reportDate) ==> EventsSorted(g)
  {
    var all := InIdOrder(rest);
    var keys := BucketOrder(all);
    forall g | g in OrphanGroups(rest, reportDate) ensures EventsSorted(g) {
      var i :| 0 <= i < |keys| && OrphanGroup(all, keys[i], reportDate) == g;
      assert keys[i] in keys;
      SortedGroup(g.artifact, Bucket(all, keys[i]));
    }
  }

  lemma {:induction false} FoldIsSorted(gs: seq<Group>)
    requires gs != [] && forall g :: g in gs ==> EventsSorted(g)
    ensures EventsSorted(Fold(MergedGroup, gs))
  {
    if |gs| > 1 {
      var (front, last) := (gs[..|gs| - 1], gs[|gs| - 1]);
      FoldIsSorted(front);
      var held := Fold(MergedGroup, front);
      assert last in gs;
      SortedGroup(held.artifact, Absorb(held.events, last.events));
    }
  }

  lemma MergedAreSorted(gs: seq<Group>)
    requires forall g :: g in gs ==> EventsSorted(g)
    ensures forall g :: g in MergedSets(gs) ==> EventsSorted(g)
  {
    forall g | g in MergedSets(gs) ensures EventsSorted(g) {
      var i :| 0 <= i < |MergedSets(gs)| && MergedSets(gs)[i] == g;
      MergeKeepsKey();
      var k := SetKeyOf(g).value;
      KeyedIsAtItsPlace(SetKeyOf, MergedGroup, gs, i);
      MergedAt(gs, k);
      WithMembers(SetKeyOf, gs, k);
      FoldIsSorted(With(SetKeyOf, gs, k));
    }
  }

  /** In every group of the output, claimed, synthesized or merged, events come by
      time; at one time by external id; under one external id by id. */
  lemma EventsComeInOrder(es: seq<Event>, artifacts: seq<Artifact>, reportDate: Day, g: Group, i: nat, j: nat)
    requires g in RolledUp(es, artifacts, reportDate) && i < j < |g.events|
    ensures g.events[i].occurredAt <= g.events[j].occurredAt
    ensures g.events[i].occurredAt == g.events[j].occurredAt ==> StrLe(g.events[i].externalId, g.events[j].externalId)
    ensures g.events[i].occurredAt == g.events[j].occurredAt && g.events[i].externalId == g.events[j].externalId ==>
      g.events[i].id <= g.events[j].id
  {
    var raw := RawGroups(es, artifacts, reportDate);
    ClaimedAreSorted(IndexById(es), artifacts);
    OrphansAreSorted(Unclaimed(IndexById(es), artifacts), reportDate);
    assert forall x :: x in raw ==> EventsSorted(x);
    MergedAreSorted(raw);
    SortMembers(GroupLe, MergedSets(raw));
    assert EventsSorted(g) && EventLe(g.events[i], g.events[j]);
    StrLeIsOrder(g.events[i].externalId, g.events[i].externalId, g.events[i].externalId);
  }

  /** The place of a kind in the alphabetical order of the kinds' names. */
  function NamePlace(kind: ArtifactKind): nat {
    match kind
    case CommitSetKind => 0
    case ConfluencePageKind => 1
    case GitHubIssueKind => 2
    case GitHubPullRequestKind => 3
    case JiraIssueKind => 4
    case OutlookMeetingKind => 5
  }

  lemma TokensAreAlphabetical(a: ArtifactKind, b: ArtifactKind)
    ensures StrLe(KindToken(a), KindToken(b)) ==> NamePlace(a) <= NamePlace(b)
  {
    if NamePlace(b) < NamePlace(a) {
      if b.CommitSetKind? && a.ConfluencePageKind? {
        ConfluenceAfterCommits();
      } else if b.GitHubIssueKind? && a.GitHubPullRequestKind? {
        PullRequestsAfterIssues();
      } else {
        assert KindToken(b)[0] < KindToken(a)[0];
        StrLeByFirstDifference(KindToken(b), KindToken(a), 0);
      }
    }
  }

  lemma ConfluenceAfterCommits()
    ensures !StrLe(KindToken(ConfluencePageKind), KindToken(CommitSetKind))
  {
    var (a, b) := (KindToken(CommitSetKind), KindToken(ConfluencePageKind));
    assert a[..2] == b[..2] == "Co" && a[2] == 'm' && b[2] == 'n';
    StrLeByFirstDifference(a, b, 2);
  }

  lemma PullRequestsAfterIssues()
    ensures !StrLe(KindToken(GitHubPullRequestKind), KindToken(GitHubIssueKind))
  {
    var (a, b) := (KindToken(GitHubIssueKind), KindToken(GitHubPullRequestKind));
    assert a[..6] == b[..6] == "GitHub" && a[6] == 'I' && b[6] == 'P';
    StrLeByFirstDifference(a, b, 6);
  }

  /** The output groups come by the names of their kinds; two meetings then by start
      time and any others of one kind by external id; ties by artifact id. */
  lemma GroupsComeInOrder(es: seq<Event>, artifacts: seq<Artifact>, reportDate: Day, i: nat, j: nat)
    requires KindsMatch(es, artifacts) && i < j < |RolledUp(es, artifacts, reportDate)|
    ensures var out := RolledUp(es, artifacts, reportDate);
      var (a, b) := (out[i].artifact, out[j].artifact);
      && NamePlace(a.kind) <= NamePlace(b.kind)
      && (a.kind == b.kind && a.payload.Meeting? && b.payload.Meeting? ==>
            a.payload.startUtc < b.payload.startUtc
            || (a.payload.startUtc == b.payload.startUtc && IdLe(a.id, b.id)))
      && (a.kind == b.kind && !(a.payload.Meeting? && b.payload.Meeting?) ==>
            StrLe(a.externalId, b.externalId) && (a.externalId == b.externalId ==> IdLe(a.id, b.id)))
  {
    var out := RolledUp(es, artifacts, reportDate);
    RollUpSorts(es, artifacts, reportDate);
    assert GroupLe(out[i], out[j]);
    LessByFields(out[i], out[j]);
  }

  lemma LessByFields(g: Group, h: Group)
    requires GroupLe(g, h)
    ensures var (a, b) := (g.artifact, h.artifact);
      && NamePlace(a.kind) <= NamePlace(b.kind)
      && (a.kind == b.kind && a.payload.Meeting? && b.payload.Meeting? ==>
            a.payload.startUtc < b.payload.startUtc
            || (a.payload.startUtc == b.payload.startUtc && IdLe(a.id, b.id)))
      && (a.kind == b.kind && !(a.payload.Meeting? && b.payload.Meeting?) ==>
            StrLe(a.externalId, b.externalId) && (a.externalId == b.externalId ==> IdLe(a.id, b.id)))
  {
    var (a, b) := (g.artifact, h.artifact);
    TokensAreAlphabetical(a.kind, b.kind);
    StrLeIsOrder(a.externalId, a.externalId, a.externalId);
    if KindToken(a.kind) == KindToken(b.kind) { KindTokenIsInjective(a.kind, b.kind); }
  }
}
