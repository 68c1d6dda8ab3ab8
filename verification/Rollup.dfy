/** Rolling events up into groups, one per artifact: claims first, then one
    synthesized artifact per bucket of unclaimed events, then the merge of
    commit sets of the same repository and day, then the final order. */
module Rollup {
  import opened Basics
  import opened Activity
  import opened Ordered
  import opened Coalesce
  import opened RollupKeys

  datatype Group = Group(artifact: Artifact, events: seq<Event>)

  // ---- orders ----

  predicate EventLe(a: Event, b: Event) {
    if a.occurredAt != b.occurredAt then a.occurredAt < b.occurredAt
    else if a.externalId != b.externalId then StrLe(a.externalId, b.externalId)
    else a.id <= b.id
  }

  function SortedEvents(es: seq<Event>): seq<Event> { SortBy(EventLe, es) }

  function KindToken(kind: ArtifactKind): string {
    match kind
    case CommitSetKind => "CommitSet"
    case JiraIssueKind => "JiraIssue"
    case ConfluencePageKind => "ConfluencePage"
    case GitHubPullRequestKind => "GitHubPullRequest"
    case GitHubIssueKind => "GitHubIssue"
    case OutlookMeetingKind => "OutlookMeeting"
  }

  /** Ids compare as the triples they are derived from. */
  predicate IdLe(a: ArtifactId, b: ArtifactId) {
    if a.source != b.source then a.source < b.source
    else if a.kind != b.kind then StrLe(KindToken(a.kind), KindToken(b.kind))
    else StrLe(a.externalId, b.externalId)
  }

  /** Kind, then start time between two meetings and external id otherwise, then id. */
  predicate GroupLe(a: Group, b: Group) {
    var (x, y) := (a.artifact, b.artifact);
    if KindToken(x.kind) != KindToken(y.kind) then StrLe(KindToken(x.kind), KindToken(y.kind))
    else if x.payload.Meeting? && y.payload.Meeting? then
      x.payload.startUtc < y.payload.startUtc || (x.payload.startUtc == y.payload.startUtc && IdLe(x.id, y.id))
    else if x.externalId != y.externalId then StrLe(x.externalId, y.externalId)
    else IdLe(x.id, y.id)
  }

  // ---- claims ----

  /** The events by id; a later event replaces an earlier one of its id. */
  function IndexById(es: seq<Event>): map<nat, Event> {
    if es == [] then map[]
    else IndexById(es[..|es| - 1])[es[|es| - 1].id := es[|es| - 1]]
  }

  function IdSet(ids: seq<nat>): set<nat> { set id | id in ids }

  /** The values a key list takes out of a map, each once, in list order. */
  function Claim<K(==), V>(index: map<K, V>, ids: seq<K>): seq<V>
    decreases ids
  {
    if ids == [] then []
    else if ids[0] in index then [index[ids[0]]] + Claim(index - {ids[0]}, ids[1..])
    else Claim(index, ids[1..])
  }

  function ClaimedGroups(index: map<nat, Event>, artifacts: seq<Artifact>): seq<Group>
    decreases artifacts
  {
    if artifacts == [] then []
    else
      var ids := artifacts[0].payload.eventIds;
      [Group(artifacts[0], SortedEvents(Claim(index, ids)))] + ClaimedGroups(index - IdSet(ids), artifacts[1..])
  }

  function Unclaimed(index: map<nat, Event>, artifacts: seq<Artifact>): map<nat, Event>
    decreases artifacts
  {
    if artifacts == [] then index
    else Unclaimed(index - IdSet(artifacts[0].payload.eventIds), artifacts[1..])
  }

  // ---- orphans ----

  predicate NatLe(a: nat, b: nat) { a <= b }

  /** The values of the index in the order of their ids. */
  ghost function InIdOrder(index: map<nat, Event>): (r: seq<Event>)
    ensures |r| == |Ascending(NatLe, index.Keys)|
  {
    var ids := Ascending(NatLe, index.Keys);
    AscendingMembers(NatLe, index.Keys);
    seq(|ids|, i requires 0 <= i < |ids| => index[ids[i]])
  }

  function BucketKey(e: Event): Option<OrphanKey> { Some(OrphanKeyOf(e)) }

  function Bucket(es: seq<Event>, k: OrphanKey): seq<Event> { With(BucketKey, es, k) }

  function BucketKeys(es: seq<Event>): set<OrphanKey> { set e | e in es :: OrphanKeyOf(e) }

  lemma BucketIsNotEmpty(es: seq<Event>, k: OrphanKey)
    requires k in BucketKeys(es)
    ensures SortedEvents(Bucket(es, k)) != []
  {
    WithMembers(BucketKey, es, k);
    var e :| e in es && OrphanKeyOf(e) == k;
    SortKeepsElements(EventLe, Bucket(es, k));
  }

  function OrphanGroup(es: seq<Event>, k: OrphanKey, reportDate: Day): Group
    requires k in BucketKeys(es)
  {
    BucketIsNotEmpty(es, k);
    Group(Synthesize(k, SortedEvents(Bucket(es, k)), reportDate), SortedEvents(Bucket(es, k)))
  }

  function OrphanGroupsFor(es: seq<Event>, keys: seq<OrphanKey>, reportDate: Day): (r: seq<Group>)
    requires forall k :: k in keys ==> k in BucketKeys(es)
    ensures |r| == |keys|
  {
    seq(|keys|, i requires 0 <= i < |keys| => OrphanGroup(es, keys[i], reportDate))
  }

  /** The keys of the buckets, in their order. */
  ghost function BucketOrder(es: seq<Event>): (keys: seq<OrphanKey>)
    ensures forall k :: k in keys <==> k in BucketKeys(es)
    ensures forall i, j :: 0 <= i < j < |keys| ==> keys[i] != keys[j]
  {
    KeyLeIsTotalOrder();
    AscendingMembers(KeyLe, BucketKeys(es));
    Ascending(KeyLe, BucketKeys(es))
  }

  ghost function OrphanGroups(rest: map<nat, Event>, reportDate: Day): seq<Group> {
    OrphanGroupsFor(InIdOrder(rest), BucketOrder(InIdOrder(rest)), reportDate)
  }

  /** The groups before commit sets are merged. */
  ghost function RawGroups(es: seq<Event>, artifacts: seq<Artifact>, reportDate: Day): seq<Group> {
    ClaimedGroups(IndexById(es), artifacts) + OrphanGroups(Unclaimed(IndexById(es), artifacts), reportDate)
  }

  // ---- merging commit sets ----

  datatype SetKey = RepoSet(path: string, day: Day) | Alone(id: ArtifactId)

  function SetKeyOf(g: Group): Option<SetKey> {
    Some(if g.artifact.payload.CommitSet? then RepoSet(g.artifact.payload.repoPath, g.artifact.payload.date)
         else Alone(g.artifact.id))
  }

  predicate HasExternalId(es: seq<Event>, externalId: string) {
    exists i :: 0 <= i < |es| && es[i].externalId == externalId
  }

  /** Append the events whose external id is not there yet. */
  function Absorb(es: seq<Event>, more: seq<Event>): seq<Event>
    decreases more
  {
    if more == [] then es
    else Absorb(if HasExternalId(es, more[0].externalId) then es else es + [more[0]], more[1..])
  }

  /** Commit sets of one key pool their events in the first; any other group
      takes the place of an earlier one with its id. */
  function MergedGroup(a: Group, b: Group): Group {
    if a.artifact.payload.CommitSet? then Group(a.artifact, SortedEvents(Absorb(a.events, b.events))) else b
  }

  function MergedSets(gs: seq<Group>): seq<Group> { Coalesced(SetKeyOf, MergedGroup, gs) }

  ghost function RolledUp(es: seq<Event>, artifacts: seq<Artifact>, reportDate: Day): seq<Group> {
    SortBy(GroupLe, MergedSets(RawGroups(es, artifacts, reportDate)))
  }
}
