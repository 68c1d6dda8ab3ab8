/** Artifacts, the bucket an orphan event falls into, and the artifact that is
    synthesized for a bucket. An artifact id is kept as the triple it is hashed
    from; a day prints as its number, and a path is its text. */
module RollupKeys {
  import opened Basics
  import opened Activity
  import opened Ordered
  import opened Text

  datatype Provider = GitLab | GitHub

  datatype ArtifactKind =
    | CommitSetKind | JiraIssueKind | ConfluencePageKind
    | GitHubPullRequestKind | GitHubIssueKind | OutlookMeetingKind

  datatype ArtifactId = ArtifactId(source: SourceId, kind: ArtifactKind, externalId: string)

  datatype Payload =
    | CommitSet(repoPath: string, date: Day, eventIds: seq<nat>, commitShas: seq<string>)
    | JiraIssuePayload(issueKey: string, projectKey: string, date: Day, eventIds: seq<nat>)
    | ConfluencePagePayload(pageId: string, spaceKey: string, date: Day, eventIds: seq<nat>)
    | MergeRequest(provider: Provider, number: int, project: string, title: string, url: string, date: Day,
                   eventIds: seq<nat>)
    | Meeting(outlookEventId: string, title: string, startUtc: int, endUtc: int, date: Day, eventIds: seq<nat>)

  datatype Artifact = Artifact(
    id: ArtifactId,
    sourceId: SourceId,
    kind: ArtifactKind,
    externalId: string,
    payload: Payload,
    createdAt: int)

  // ---- the group key of an event ----

  datatype GroupKind = RepoGroup | ProjectGroup | SpaceGroup

  datatype GroupKey = GroupKey(kind: GroupKind, value: string, caption: Option<string>)

  predicate IsJira(kind: ActivityKind) {
    kind.JiraIssueTransitioned? || kind.JiraIssueCommented? || kind.JiraIssueAssigned?
    || kind.JiraIssueUnassigned? || kind.JiraIssueCreated?
  }

  predicate IsConfluence(kind: ActivityKind) {
    kind.ConfluencePageCreated? || kind.ConfluencePageEdited? || kind.ConfluenceComment?
  }

  predicate IsGitLabMr(kind: ActivityKind) {
    kind.MrOpened? || kind.MrMerged? || kind.MrClosed? || kind.MrReviewComment? || kind.MrApproved?
  }

  predicate IsGitHubPr(kind: ActivityKind) {
    kind.GitHubPullRequestOpened? || kind.GitHubPullRequestMerged? || kind.GitHubPullRequestClosed?
    || kind.GitHubPullRequestReviewed? || kind.GitHubPullRequestCommented?
  }

  predicate IsGitHub(kind: ActivityKind) {
    IsGitHubPr(kind) || kind.GitHubIssueOpened? || kind.GitHubIssueClosed?
    || kind.GitHubIssueCommented? || kind.GitHubIssueAssigned?
  }

  function EntityGroup(e: Event, entityKind: EntityKind, groupKind: GroupKind): GroupKey {
    var found := FirstEntity(e.entities, entityKind);
    if found.None? then GroupKey(groupKind, "/", None)
    else GroupKey(groupKind, if found.value.externalId == "" then "/" else found.value.externalId, found.value.caption)
  }

  function GroupKeyOf(e: Event): GroupKey {
    if IsJira(e.kind) then EntityGroup(e, JiraProject, ProjectGroup)
    else if IsConfluence(e.kind) then EntityGroup(e, ConfluenceSpace, SpaceGroup)
    else if IsGitHub(e.kind) then EntityGroup(e, GitHubRepo, RepoGroup)
    else EntityGroup(e, Repo, RepoGroup)
  }

  // ---- the bucket of an orphan event ----

  datatype OrphanKey =
    | RepoDay(source: SourceId, path: string, day: Day)
    | IssueDay(source: SourceId, issue: string, project: string, day: Day)
    | PageDay(source: SourceId, page: string, space: string, day: Day)
    | MrDay(source: SourceId, provider: Provider, project: string, number: int, day: Day)
    | MeetingDay(source: SourceId, meeting: string, day: Day)

  function IdOrUnknown(e: Event, kind: EntityKind): string {
    var found := FirstEntity(e.entities, kind);
    if found.Some? then found.value.externalId else "UNKNOWN"
  }

  function GitlabMrIdentity(e: Event): Option<(string, int)> {
    var repo := FirstEntity(e.entities, Repo);
    if repo.None? || repo.value.externalId == "" || repo.value.externalId == "/" then None
    else if e.externalId == "" || e.externalId[0] != '!' then None
    else
      var number := ParseI64(e.externalId[1..]);
      if number.None? then None else Some((repo.value.externalId, number.value))
  }

  /** The text before the first `sep` and the text after it. */
  function SplitOnce(s: string, sep: char): Option<(string, string)> {
    if s == "" then None
    else if s[0] == sep then Some(("", s[1..]))
    else
      var rest := SplitOnce(s[1..], sep);
      if rest.None? then None else Some(([s[0]] + rest.value.0, rest.value.1))
  }

  function GithubPrIdentity(e: Event): Option<(string, int)> {
    var parts := SplitOnce(e.externalId, '#');
    if parts.None? || parts.value.0 == "" then None
    else
      var number := ParseI64(parts.value.1);
      if number.None? then None else Some((parts.value.0, number.value))
  }

  function OrphanKeyOf(e: Event): OrphanKey {
    var day := DayOf(e.occurredAt);
    var repoDay := RepoDay(e.sourceId, GroupKeyOf(e).value, day);
    if IsJira(e.kind) then IssueDay(e.sourceId, IdOrUnknown(e, JiraIssue), GroupKeyOf(e).value, day)
    else if IsConfluence(e.kind) then PageDay(e.sourceId, IdOrUnknown(e, ConfluencePage), GroupKeyOf(e).value, day)
    else if IsGitLabMr(e.kind) then
      var mr := GitlabMrIdentity(e);
      if mr.Some? then MrDay(e.sourceId, GitLab, mr.value.0, mr.value.1, day) else repoDay
    else if IsGitHubPr(e.kind) then
      var pr := GithubPrIdentity(e);
      if pr.Some? then MrDay(e.sourceId, GitHub, pr.value.0, pr.value.1, day) else repoDay
    else if e.kind.OutlookMeetingAttended? then MeetingDay(e.sourceId, e.externalId, day)
    else repoDay
  }

  // ---- the order of buckets ----

  function Rank(k: OrphanKey): nat {
    match k
    case RepoDay(_, _, _) => 0
    case IssueDay(_, _, _, _) => 1
    case PageDay(_, _, _, _) => 2
    case MrDay(_, _, _, _, _) => 3
    case MeetingDay(_, _, _) => 4
  }

  function ProviderRank(k: OrphanKey): nat { if k.MrDay? && k.provider.GitHub? then 1 else 0 }
  function FirstText(k: OrphanKey): string {
    match k
    case RepoDay(_, path, _) => path
    case IssueDay(_, issue, _, _) => issue
    case PageDay(_, page, _, _) => page
    case MrDay(_, _, project, _, _) => project
    case MeetingDay(_, meeting, _) => meeting
  }
  function SecondText(k: OrphanKey): string {
    if k.IssueDay? then k.project else if k.PageDay? then k.space else ""
  }
  function Number(k: OrphanKey): int { if k.MrDay? then k.number else 0 }

  /** Variant, source, provider, texts, number, day: field by field. */
  predicate KeyLe(a: OrphanKey, b: OrphanKey) {
    if Rank(a) != Rank(b) then Rank(a) < Rank(b)
    else if a.source != b.source then a.source < b.source
    else if ProviderRank(a) != ProviderRank(b) then ProviderRank(a) < ProviderRank(b)
    else if FirstText(a) != FirstText(b) then StrLe(FirstText(a), FirstText(b))
    else if SecondText(a) != SecondText(b) then StrLe(SecondText(a), SecondText(b))
    else if Number(a) != Number(b) then Number(a) < Number(b)
    else a.day <= b.day
  }

  lemma StrLeIsOrder(a: string, b: string, c: string)
    ensures StrLe(a, b) || StrLe(b, a)
    ensures StrLe(a, b) && StrLe(b, a) ==> a == b
    ensures StrLe(a, b) && StrLe(b, c) ==> StrLe(a, c)
  {
    StrLeTotal(a, b);
    if StrLe(a, b) && StrLe(b, a) { StrLeAntisymmetric(a, b); }
    if StrLe(a, b) && StrLe(b, c) { StrLeTransitive(a, b, c); }
  }

  lemma KeyLeIsOrder(a: OrphanKey, b: OrphanKey, c: OrphanKey)
    ensures KeyLe(a, b) || KeyLe(b, a)
    ensures KeyLe(a, b) && KeyLe(b, a) ==> a == b
    ensures KeyLe(a, b) && KeyLe(b, c) ==> KeyLe(a, c)
  {
    StrLeIsOrder(FirstText(a), FirstText(b), FirstText(c));
    StrLeIsOrder(SecondText(a), SecondText(b), SecondText(c));
    StrLeIsOrder(FirstText(b), FirstText(c), FirstText(a));
    StrLeIsOrder(SecondText(b), SecondText(c), SecondText(a));
  }

  lemma KeyLeIsTotalOrder()
    ensures TotalOrder(KeyLe)
  {
    forall a, b, c
      ensures KeyLe(a, b) || KeyLe(b, a)
      ensures KeyLe(a, b) && KeyLe(b, a) ==> a == b
      ensures KeyLe(a, b) && KeyLe(b, c) ==> KeyLe(a, c)
    {
      KeyLeIsOrder(a, b, c);
    }
  }

  // ---- the synthesized artifact ----

  function CommitSetExternalId(path: string, day: Day): string {
    path + "::" + ShowInt(day) + "::synthetic"
  }

  function Sigil(provider: Provider): char { if provider.GitLab? then '!' else '#' }

  function MrExternalId(provider: Provider, project: string, number: int, day: Day): string {
    project + [Sigil(provider)] + ShowInt(number) + "::" + ShowInt(day)
  }

  /** The triple a bucket's artifact id is derived from. */
  function SyntheticId(k: OrphanKey): ArtifactId {
    match k
    case RepoDay(source, path, day) => ArtifactId(source, CommitSetKind, CommitSetExternalId(path, day))
    case IssueDay(source, issue, _, day) => ArtifactId(source, JiraIssueKind, issue + "::" + ShowInt(day))
    case PageDay(source, page, _, day) => ArtifactId(source, ConfluencePageKind, page + "::" + ShowInt(day))
    case MrDay(source, provider, project, number, day) =>
      ArtifactId(source, GitHubPullRequestKind, MrExternalId(provider, project, number, day))
    case MeetingDay(source, meeting, _) => ArtifactId(source, OutlookMeetingKind, meeting)
  }

  function EventIds(es: seq<Event>): seq<nat> {
    seq(|es|, i requires 0 <= i < |es| => es[i].id)
  }

  function ExternalIds(es: seq<Event>): seq<string> {
    seq(|es|, i requires 0 <= i < |es| => es[i].externalId)
  }

  const MR_PREFIXES: seq<string> := [
    "Opened MR: ", "Merged MR: ", "Closed MR: ", "Approved MR: ", "Commented on MR: ",
    "Opened PR: ", "Merged PR: ", "Closed PR: ", "Reviewed PR: ", "Commented on PR: "]

  function StripPrefix(title: string, prefixes: seq<string>): string {
    if prefixes == [] then title
    else if prefixes[0] <= title then title[|prefixes[0]|..]
    else StripPrefix(title, prefixes[1..])
  }

  function FirstOpened(es: seq<Event>): Option<Event> {
    if es == [] then None
    else if es[0].kind.MrOpened? || es[0].kind.GitHubPullRequestOpened? then Some(es[0])
    else FirstOpened(es[1..])
  }

  function MrTitle(es: seq<Event>): string {
    var opening := FirstOpened(es);
    var raw := if opening.Some? then opening.value.title else if es != [] then es[0].title else "";
    StripPrefix(raw, MR_PREFIXES)
  }

  function FirstUrl(es: seq<Event>): string {
    if es == [] then ""
    else if es[0].links != [] then es[0].links[0].url
    else FirstUrl(es[1..])
  }

  /** A missing or unreadable bound falls back, first to the event's own time. */
  function MeetingBounds(e: Event): (int, int) {
    var start := if e.metadata.startUtc.Some? then e.metadata.startUtc.value else e.occurredAt;
    (start, if e.metadata.endUtc.Some? then e.metadata.endUtc.value else start)
  }

  function Synthesize(k: OrphanKey, es: seq<Event>, reportDate: Day): Artifact
    requires es != []
  {
    var id := SyntheticId(k);
    var payload := match k
      case RepoDay(_, path, day) => CommitSet(path, day, EventIds(es), ExternalIds(es))
      case IssueDay(_, issue, project, day) => JiraIssuePayload(issue, project, day, EventIds(es))
      case PageDay(_, page, space, day) => ConfluencePagePayload(page, space, day, EventIds(es))
      case MrDay(_, provider, project, number, day) =>
        MergeRequest(provider, number, project, MrTitle(es), FirstUrl(es), day, EventIds(es))
      case MeetingDay(_, meeting, day) =>
        Meeting(meeting, es[0].title, MeetingBounds(es[0]).0, MeetingBounds(es[0]).1, day, EventIds(es));
    Artifact(id, k.source, id.kind, id.externalId, payload, reportDate * NANOS_PER_DAY)
  }

  // ---- reading keys back ----

  /** The bucket an artifact's source and payload stand for. */
  function BucketOfArtifact(a: Artifact): OrphanKey {
    match a.payload
    case CommitSet(path, day, _, _) => RepoDay(a.sourceId, path, day)
    case JiraIssuePayload(issue, project, day, _) => IssueDay(a.sourceId, issue, project, day)
    case ConfluencePagePayload(page, space, day, _) => PageDay(a.sourceId, page, space, day)
    case MergeRequest(provider, number, project, _, _, day, _) => MrDay(a.sourceId, provider, project, number, day)
    case Meeting(meeting, _, _, _, day, _) => MeetingDay(a.sourceId, meeting, day)
  }

  /** Unlike the id, source and payload keep the whole bucket; and the payload
      lists the events of the bucket, in their order. */
  lemma SynthesizeKeepsBucket(k: OrphanKey, es: seq<Event>, reportDate: Day)
    requires es != []
    ensures var a := Synthesize(k, es, reportDate);
      && BucketOfArtifact(a) == k
      && a.id == ArtifactId(k.source, a.kind, a.externalId)
      && |a.payload.eventIds| == |es| && forall i :: 0 <= i < |es| ==> a.payload.eventIds[i] == es[i].id
  {
  }

  lemma {:induction false} SplitsAtFirst(a: string, b: string, sep: char)
    requires sep !in a
    ensures SplitOnce(a + [sep] + b, sep) == Some((a, b))
  {
    var s := a + [sep] + b;
    if a == "" {
      assert s[1..] == b;
    } else {
      SplitsAtFirst(a[1..], b, sep);
      assert s[1..] == a[1..] + [sep] + b;
      assert a == [a[0]] + a[1..];
    }
  }

  /** The id the GitHub connector writes is read back as its repository and number. */
  lemma GithubIdReadsBack(e: Event, project: string, number: int)
    requires project != "" && '#' !in project && MIN_I64 <= number <= MAX_I64
    requires e.externalId == project + "#" + ShowInt(number)
    ensures GithubPrIdentity(e) == Some((project, number))
    ensures IsGitHubPr(e.kind) ==> OrphanKeyOf(e) == MrDay(e.sourceId, GitHub, project, number, DayOf(e.occurredAt))
  {
    SplitsAtFirst(project, ShowInt(number), '#');
    ParseOfShow(number);
  }

  /** So is the number the GitLab connector writes, next to its repository. */
  lemma GitlabIdReadsBack(e: Event, repo: EntityRef, number: int)
    requires FirstEntity(e.entities, Repo) == Some(repo) && repo.externalId != "" && repo.externalId != "/"
    requires e.externalId == "!" + ShowInt(number) && MIN_I64 <= number <= MAX_I64
    ensures GitlabMrIdentity(e) == Some((repo.externalId, number))
    ensures IsGitLabMr(e.kind) ==>
      OrphanKeyOf(e) == MrDay(e.sourceId, GitLab, repo.externalId, number, DayOf(e.occurredAt))
  {
    ParseOfShow(number);
    assert e.externalId[1..] == ShowInt(number);
  }

  // ---- which buckets share an id ----

  lemma DayEndsText(a: string, d: Day, b: string, e: Day)
    requires a + "::" + ShowInt(d) == b + "::" + ShowInt(e)
    ensures a == b && d == e
  {
    ShowIntAlphabet(d);
    ShowIntAlphabet(e);
    assert a + "::" + ShowInt(d) == (a + ":") + [':'] + ShowInt(d);
    assert b + "::" + ShowInt(e) == (b + ":") + [':'] + ShowInt(e);
    SplitAtLast(a + ":", ShowInt(d), b + ":", ShowInt(e), ':');
    assert (a + ":")[..|a|] == a && (b + ":")[..|b|] == b;
    ShowIntIsInjective(d, e);
  }

  /** The external id of a merge request tells provider, project, number and day. */
  lemma MrExternalIdIsInjective(p: Provider, project: string, n: int, d: Day, p': Provider, project': string, n': int,
                                d': Day)
    requires MrExternalId(p, project, n, d) == MrExternalId(p', project', n', d')
    ensures p == p' && project == project' && n == n' && d == d'
  {
    var (a, b) := (project + [Sigil(p)] + ShowInt(n), project' + [Sigil(p')] + ShowInt(n'));
    DayEndsText(a, d, b, d');
    ShowIntAlphabet(n);
    ShowIntAlphabet(n');
    if p == p' {
      SplitAtLast(project, ShowInt(n), project', ShowInt(n'), Sigil(p));
      ShowIntIsInjective(n, n');
    } else {
      LastMarkIsShared(project, ShowInt(n), project', ShowInt(n'), Sigil(p), Sigil(p'));
    }
  }

  /** Two texts that end in a mark and a part free of both marks cannot be equal
      when the marks differ. */
  lemma LastMarkIsShared(a: string, x: string, b: string, y: string, s: char, t: char)
    requires a + [s] + x == b + [t] + y
    requires s !in x && t !in x && s !in y && t !in y
    ensures s == t
  {
    var u := a + [s] + x;
    assert u[|a|] == s && u == b + [t] + y && u[|b|] == t;
    assert forall k :: |a| < k < |u| ==> u[k] == x[k - |a| - 1];
    assert forall k :: |b| < k < |u| ==> u[k] == y[k - |b| - 1];
  }

  /** Two buckets that are equal up to what their id leaves out: the project of
      an issue, the space of a page, the day of a meeting. */
  predicate SameIdentity(a: OrphanKey, b: OrphanKey) {
    match (a, b)
    case (RepoDay(s, p, d), RepoDay(s', p', d')) => s == s' && p == p' && d == d'
    case (IssueDay(s, i, _, d), IssueDay(s', i', _, d')) => s == s' && i == i' && d == d'
    case (PageDay(s, p, _, d), PageDay(s', p', _, d')) => s == s' && p == p' && d == d'
    case (MrDay(s, p, r, n, d), MrDay(s', p', r', n', d')) => s == s' && p == p' && r == r' && n == n' && d == d'
    case (MeetingDay(s, m, _), MeetingDay(s', m', _)) => s == s' && m == m'
    case _ => false
  }

  lemma CommitSetIdIsInjective(p: string, d: Day, p': string, d': Day)
    requires CommitSetExternalId(p, d) == CommitSetExternalId(p', d')
    ensures p == p' && d == d'
  {
    var (a, b) := (p + "::" + ShowInt(d), p' + "::" + ShowInt(d'));
    assert CommitSetExternalId(p, d)[..|a|] == a && CommitSetExternalId(p', d')[..|b|] == b;
    DayEndsText(p, d, p', d');
  }

  /** Two buckets get the same artifact id exactly when they have the same
      identity; so two merge-request buckets never do unless they are equal. */
  lemma IdsCollideExactly(a: OrphanKey, b: OrphanKey)
    ensures SyntheticId(a) == SyntheticId(b) <==> SameIdentity(a, b)
  {
    if SyntheticId(a) == SyntheticId(b) {
      match (a, b)
      case (RepoDay(_, p, d), RepoDay(_, p', d')) => CommitSetIdIsInjective(p, d, p', d');
      case (IssueDay(_, i, _, d), IssueDay(_, i', _, d')) => DayEndsText(i, d, i', d');
      case (PageDay(_, p, _, d), PageDay(_, p', _, d')) => DayEndsText(p, d, p', d');
      case (MrDay(_, p, r, n, d), MrDay(_, p', r', n', d')) => MrExternalIdIsInjective(p, r, n, d, p', r', n', d');
      case (MeetingDay(_, _, _), MeetingDay(_, _, _)) =>
      case _ =>
    }
  }
}
