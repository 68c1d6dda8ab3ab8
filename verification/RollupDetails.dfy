/** Which bucket an event falls into, kind by kind, and what the artifact of a
    bucket records, field by field. */
module RollupDetails {
  import opened Basics
  import opened Activity
  import opened Text
  import opened RollupKeys

  // ---- the bucket of an event ----

  ghost predicate Names(e: Event, kind: EntityKind, text: string) {
    exists i :: 0 <= i < |e.entities| && e.entities[i].kind == kind && e.entities[i].externalId == text
                && forall j :: 0 <= j < i ==> e.entities[j].kind != kind
  }

  ghost predicate NamesNone(e: Event, kind: EntityKind) {
    forall i :: 0 <= i < |e.entities| ==> e.entities[i].kind != kind
  }

  /** The first entity of the kind; a slash if there is none or its name is empty. */
  ghost predicate GroupsUnder(e: Event, kind: EntityKind, text: string) {
    (Names(e, kind, text) && text != "") || (text == "/" && (NamesNone(e, kind) || Names(e, kind, "")))
  }

  ghost predicate NamesOrUnknown(e: Event, kind: EntityKind, text: string) {
    Names(e, kind, text) || (text == "UNKNOWN" && NamesNone(e, kind))
  }

  /** A repository and, behind an exclamation mark, a number. */
  ghost predicate ReadsAsGitLab(e: Event, project: string, number: int) {
    && Names(e, Repo, project) && project != "" && project != "/"
    && e.externalId != "" && e.externalId[0] == '!' && ParseI64(e.externalId[1..]) == Some(number)
  }

  /** A repository and a number around the first number sign. */
  ghost predicate ReadsAsGitHub(e: Event, project: string, number: int) {
    && project != "" && '#' !in project && project + "#" <= e.externalId
    && ParseI64(e.externalId[|project| + 1..]) == Some(number)
  }

  ghost predicate GitLabId(e: Event) { exists project, number :: ReadsAsGitLab(e, project, number) }

  ghost predicate GitHubId(e: Event) { exists project, number :: ReadsAsGitHub(e, project, number) }

  predicate JiraKind(kind: ActivityKind) {
    kind in {JiraIssueTransitioned, JiraIssueCommented, JiraIssueAssigned, JiraIssueUnassigned, JiraIssueCreated}
  }

  predicate PageKind(kind: ActivityKind) { kind in {ConfluencePageCreated, ConfluencePageEdited, ConfluenceComment} }

  predicate GitLabMrKind(kind: ActivityKind) { kind in {MrOpened, MrMerged, MrClosed, MrReviewComment, MrApproved} }

  predicate GitHubPrKind(kind: ActivityKind) {
    kind in {GitHubPullRequestOpened, GitHubPullRequestMerged, GitHubPullRequestClosed, GitHubPullRequestReviewed,
             GitHubPullRequestCommented}
  }

  predicate GitHubIssueKinds(kind: ActivityKind) {
    kind in {GitHubIssueOpened, GitHubIssueClosed, GitHubIssueCommented, GitHubIssueAssigned}
  }

  predicate PlainKind(kind: ActivityKind) { kind in {CommitAuthored, IssueOpened, IssueClosed, IssueComment} }

  lemma EntityNames(e: Event, kind: EntityKind)
    ensures var found := FirstEntity(e.entities, kind);
      (found.None? <==> NamesNone(e, kind)) && (found.Some? ==> Names(e, kind, found.value.externalId))
    ensures forall text :: Names(e, kind, text) ==>
      FirstEntity(e.entities, kind).Some? && FirstEntity(e.entities, kind).value.externalId == text
  {
    FirstEntityIsFirst(e.entities, kind);
  }

  lemma {:induction false} SplitOnceExactly(s: string, sep: char)
    ensures SplitOnce(s, sep).None? <==> sep !in s
    ensures SplitOnce(s, sep).Some? ==>
      sep !in SplitOnce(s, sep).value.0 && s == SplitOnce(s, sep).value.0 + [sep] + SplitOnce(s, sep).value.1
  {
    if s != "" {
      SplitOnceExactly(s[1..], sep);
      assert s == [s[0]] + s[1..];
    }
  }

  lemma GitLabExactly(e: Event)
    ensures GitlabMrIdentity(e).Some? <==> GitLabId(e)
    ensures GitlabMrIdentity(e).Some? ==> ReadsAsGitLab(e, GitlabMrIdentity(e).value.0, GitlabMrIdentity(e).value.1)
  {
    EntityNames(e, Repo);
    var found := GitlabMrIdentity(e);
    assert found.Some? ==> ReadsAsGitLab(e, found.value.0, found.value.1);
    if project, number :| ReadsAsGitLab(e, project, number) { GitLabReads(e, project, number); }
  }

  lemma GitLabReads(e: Event, project: string, number: int)
    requires ReadsAsGitLab(e, project, number)
    ensures GitlabMrIdentity(e) == Some((project, number))
  {
    EntityNames(e, Repo);
  }

  lemma GitHubReads(e: Event, project: string, number: int)
    requires ReadsAsGitHub(e, project, number)
    ensures GithubPrIdentity(e) == Some((project, number))
  {
    var rest := e.externalId[|project| + 1..];
    assert e.externalId == project + ['#'] + rest;
    SplitsAtFirst(project, rest, '#');
  }

  lemma GitHubReadsBack(e: Event)
    requires GithubPrIdentity(e).Some?
    ensures ReadsAsGitHub(e, GithubPrIdentity(e).value.0, GithubPrIdentity(e).value.1)
  {
    SplitOnceExactly(e.externalId, '#');
    var parts := SplitOnce(e.externalId, '#').value;
    assert e.externalId == parts.0 + "#" + parts.1;
    assert e.externalId[|parts.0| + 1..] == parts.1;
  }

  lemma GitHubExactly(e: Event)
    ensures GithubPrIdentity(e).Some? <==> GitHubId(e)
  {
    if GithubPrIdentity(e).Some? { GitHubReadsBack(e); }
    if project, number :| ReadsAsGitHub(e, project, number) { GitHubReads(e, project, number); }
  }

  lemma GroupsUnderFirst(e: Event, kind: EntityKind, groupKind: GroupKind)
    ensures GroupsUnder(e, kind, EntityGroup(e, kind, groupKind).value)
  {
    EntityNames(e, kind);
  }

  lemma GroupNames(e: Event)
    ensures JiraKind(e.kind) ==> GroupKeyOf(e) == EntityGroup(e, JiraProject, ProjectGroup)
    ensures PageKind(e.kind) ==> GroupKeyOf(e) == EntityGroup(e, ConfluenceSpace, SpaceGroup)
    ensures GitHubPrKind(e.kind) || GitHubIssueKinds(e.kind) ==> GroupKeyOf(e) == EntityGroup(e, GitHubRepo, RepoGroup)
    ensures GitLabMrKind(e.kind) || PlainKind(e.kind) ==> GroupKeyOf(e) == EntityGroup(e, Repo, RepoGroup)
  {
  }

  lemma NamesUnknown(e: Event, kind: EntityKind)
    ensures NamesOrUnknown(e, kind, IdOrUnknown(e, kind))
  {
    EntityNames(e, kind);
  }

  lemma JiraBucket(e: Event)
    requires JiraKind(e.kind)
    ensures var k := OrphanKeyOf(e);
      k.IssueDay? && NamesOrUnknown(e, JiraIssue, k.issue) && GroupsUnder(e, JiraProject, k.project)
  {
    GroupNames(e);
    GroupsUnderFirst(e, JiraProject, ProjectGroup);
    NamesUnknown(e, JiraIssue);
  }

  lemma PageBucket(e: Event)
    requires PageKind(e.kind)
    ensures var k := OrphanKeyOf(e);
      k.PageDay? && NamesOrUnknown(e, ConfluencePage, k.page) && GroupsUnder(e, ConfluenceSpace, k.space)
  {
    GroupNames(e);
    GroupsUnderFirst(e, ConfluenceSpace, SpaceGroup);
    NamesUnknown(e, ConfluencePage);
  }

  lemma RepositoryBucket(e: Event)
    requires GitHubIssueKinds(e.kind) || PlainKind(e.kind)
    ensures var k := OrphanKeyOf(e);
      k.RepoDay? && GroupsUnder(e, if GitHubIssueKinds(e.kind) then GitHubRepo else Repo, k.path)
  {
    GroupNames(e);
    GroupsUnderFirst(e, if GitHubIssueKinds(e.kind) then GitHubRepo else Repo, RepoGroup);
  }

  lemma BucketDay(e: Event)
    ensures OrphanKeyOf(e).source == e.sourceId && OrphanKeyOf(e).day == DayOf(e.occurredAt)
  {
  }

  lemma DayHoldsInstant(instant: int)
    ensures DayOf(instant) * 86_400_000_000_000 <= instant < (DayOf(instant) + 1) * 86_400_000_000_000
  {
  }

  /** The bucket of an event: its source, its UTC day, and by its kind the entities
      or the id it is told by. */
  lemma BucketByKind(e: Event)
    ensures var k := OrphanKeyOf(e);
      && k.source == e.sourceId
      && k.day * 86_400_000_000_000 <= e.occurredAt < (k.day + 1) * 86_400_000_000_000
      && (JiraKind(e.kind) ==>
            k.IssueDay? && NamesOrUnknown(e, JiraIssue, k.issue) && GroupsUnder(e, JiraProject, k.project))
      && (PageKind(e.kind) ==>
            k.PageDay? && NamesOrUnknown(e, ConfluencePage, k.page) && GroupsUnder(e, ConfluenceSpace, k.space))
      && (e.kind == OutlookMeetingAttended ==> k.MeetingDay? && k.meeting == e.externalId)
      && (GitHubIssueKinds(e.kind) ==> k.RepoDay? && GroupsUnder(e, GitHubRepo, k.path))
      && (PlainKind(e.kind) ==> k.RepoDay? && GroupsUnder(e, Repo, k.path))
  {
    BucketDay(e);
    DayHoldsInstant(e.occurredAt);
    if JiraKind(e.kind) {
      JiraBucket(e);
    } else if PageKind(e.kind) {
      PageBucket(e);
    } else if GitHubIssueKinds(e.kind) || PlainKind(e.kind) {
      RepositoryBucket(e);
    }
  }

  lemma GitLabBucket(e: Event)
    requires GitLabMrKind(e.kind)
    ensures var k := OrphanKeyOf(e);
      if GitLabId(e) then k.MrDay? && k.provider == GitLab && ReadsAsGitLab(e, k.project, k.number)
      else k == RepoDay(e.sourceId, GroupKeyOf(e).value, DayOf(e.occurredAt))
  {
    GitLabExactly(e);
  }

  lemma GitHubBucket(e: Event)
    requires GitHubPrKind(e.kind)
    ensures var k := OrphanKeyOf(e);
      if GitHubId(e) then k.MrDay? && k.provider == GitHub && ReadsAsGitHub(e, k.project, k.number)
      else k == RepoDay(e.sourceId, GroupKeyOf(e).value, DayOf(e.occurredAt))
  {
    GitHubExactly(e);
    if GithubPrIdentity(e).Some? { GitHubReadsBack(e); }
  }

  /** A merge request is told by repository and number where its id is readable,
      and falls to its repository's day where it is not. */
  lemma MergeRequestBucket(e: Event)
    ensures var k := OrphanKeyOf(e);
      GitLabMrKind(e.kind) ==>
        if GitLabId(e) then k.MrDay? && k.provider == GitLab && ReadsAsGitLab(e, k.project, k.number)
        else k.RepoDay? && GroupsUnder(e, Repo, k.path)
    ensures var k := OrphanKeyOf(e);
      GitHubPrKind(e.kind) ==>
        if GitHubId(e) then k.MrDay? && k.provider == GitHub && ReadsAsGitHub(e, k.project, k.number)
        else k.RepoDay? && GroupsUnder(e, GitHubRepo, k.path)
  {
    GroupNames(e);
    if GitLabMrKind(e.kind) {
      GitLabBucket(e);
      GroupsUnderFirst(e, Repo, RepoGroup);
    } else if GitHubPrKind(e.kind) {
      GitHubBucket(e);
      GroupsUnderFirst(e, GitHubRepo, RepoGroup);
    }
  }

  /** Each text an event groups under, and each id it reads as, is the only one. */
  lemma BucketIsDetermined(e: Event, kind: EntityKind, a: string, b: string, m: int, n: int)
    ensures GroupsUnder(e, kind, a) && GroupsUnder(e, kind, b) ==> a == b
    ensures NamesOrUnknown(e, kind, a) && NamesOrUnknown(e, kind, b) ==> a == b
    ensures ReadsAsGitLab(e, a, m) && ReadsAsGitLab(e, b, n) ==> a == b && m == n
    ensures ReadsAsGitHub(e, a, m) && ReadsAsGitHub(e, b, n) ==> a == b && m == n
  {
    EntityNames(e, kind);
    if ReadsAsGitLab(e, a, m) && ReadsAsGitLab(e, b, n) {
      GitLabReads(e, a, m);
      GitLabReads(e, b, n);
    }
    if ReadsAsGitHub(e, a, m) && ReadsAsGitHub(e, b, n) {
      GitHubReads(e, a, m);
      GitHubReads(e, b, n);
    }
  }

  // ---- what a bucket's artifact records ----

  lemma {:induction false} StripsOnePrefix(title: string, prefixes: seq<string>)
    ensures (StripPrefix(title, prefixes) == title && forall k :: 0 <= k < |prefixes| ==> !(prefixes[k] <= title))
      || exists k :: 0 <= k < |prefixes| && title == prefixes[k] + StripPrefix(title, prefixes)
  {
    if prefixes != [] {
      if prefixes[0] <= title {
        assert title == prefixes[0] + StripPrefix(title, prefixes);
      } else {
        var rest := prefixes[1..];
        StripsOnePrefix(title, rest);
        assert forall k :: 0 < k < |prefixes| ==> prefixes[k] == rest[k - 1];
        if k :| 0 <= k < |rest| && title == rest[k] + StripPrefix(title, rest) {
          assert title == prefixes[k + 1] + StripPrefix(title, prefixes);
        }
      }
    }
  }

  /** The title without the one lifecycle prefix it starts with, if any. */
  ghost predicate WithoutLifecycle(title: string, stripped: string) {
    var prefixes := ["Opened MR: ", "Merged MR: ", "Closed MR: ", "Approved MR: ", "Commented on MR: ",
                     "Opened PR: ", "Merged PR: ", "Closed PR: ", "Reviewed PR: ", "Commented on PR: "];
    || (stripped == title && forall k :: 0 <= k < 10 ==> !(prefixes[k] <= title))
    || exists k :: 0 <= k < 10 && title == prefixes[k] + stripped
  }

  lemma LifecycleStripped(title: string)
    ensures WithoutLifecycle(title, StripPrefix(title, MR_PREFIXES))
  {
    StripsOnePrefix(title, MR_PREFIXES);
  }

  predicate Opens(e: Event) { e.kind == MrOpened || e.kind == GitHubPullRequestOpened }

  /** The event whose title is taken: the first that opens, or else the first. */
  ghost predicate TitleFrom(es: seq<Event>, i: nat) {
    i < |es|
    && if exists k :: 0 <= k < |es| && Opens(es[k]) then Opens(es[i]) && forall k :: 0 <= k < i ==> !Opens(es[k])
       else i == 0
  }

  lemma {:induction false} FirstOpenedIsFirst(es: seq<Event>)
    ensures FirstOpened(es).None? <==> forall k :: 0 <= k < |es| ==> !Opens(es[k])
    ensures FirstOpened(es).Some? ==>
      exists i :: 0 <= i < |es| && FirstOpened(es) == Some(es[i]) && Opens(es[i])
                  && forall k :: 0 <= k < i ==> !Opens(es[k])
  {
    if es != [] && !Opens(es[0]) {
      var rest := es[1..];
      FirstOpenedIsFirst(rest);
      assert forall i :: 0 < i < |es| ==> es[i] == rest[i - 1];
      if i :| 0 <= i < |rest| && FirstOpened(rest) == Some(rest[i]) && Opens(rest[i])
              && forall k :: 0 <= k < i ==> !Opens(rest[k]) {
        assert es[i + 1] == rest[i];
      }
    }
  }

  lemma MrTitleExactly(es: seq<Event>) returns (i: nat)
    requires es != []
    ensures TitleFrom(es, i) && WithoutLifecycle(es[i].title, MrTitle(es))
  {
    FirstOpenedIsFirst(es);
    if FirstOpened(es).Some? {
      i :| 0 <= i < |es| && FirstOpened(es) == Some(es[i]) && Opens(es[i]) && forall k :: 0 <= k < i ==> !Opens(es[k]);
    } else {
      i := 0;
    }
    LifecycleStripped(es[i].title);
  }

  /** The first link of the first event that has one. */
  ghost predicate UrlFrom(es: seq<Event>, url: string) {
    (url == "" && forall k :: 0 <= k < |es| ==> es[k].links == [])
    || exists i :: 0 <= i < |es| && es[i].links != [] && url == es[i].links[0].url
                   && forall k :: 0 <= k < i ==> es[k].links == []
  }

  lemma {:induction false} FirstUrlExactly(es: seq<Event>)
    ensures UrlFrom(es, FirstUrl(es))
  {
    if es != [] && es[0].links == [] {
      var rest := es[1..];
      FirstUrlExactly(rest);
      assert forall i :: 0 < i < |es| ==> es[i] == rest[i - 1];
      if i :| 0 <= i < |rest| && rest[i].links != [] && FirstUrl(rest) == rest[i].links[0].url
              && forall k :: 0 <= k < i ==> rest[k].links == [] {
        assert es[i + 1].links != [] && FirstUrl(es) == es[i + 1].links[0].url;
      }
    }
  }

  /** Name and id of a bucket's artifact, and when it says it was made. */
  lemma SynthesizedIdentity(k: OrphanKey, es: seq<Event>, reportDate: Day)
    requires es != []
    ensures var a := Synthesize(k, es, reportDate);
      && a.sourceId == k.source && a.createdAt == reportDate * 86_400_000_000_000
      && a.id.source == k.source && a.id.kind == a.kind && a.id.externalId == a.externalId
      && (k.RepoDay? ==> a.kind == CommitSetKind && a.externalId == k.path + "::" + ShowInt(k.day) + "::synthetic")
      && (k.IssueDay? ==> a.kind == JiraIssueKind && a.externalId == k.issue + "::" + ShowInt(k.day))
      && (k.PageDay? ==> a.kind == ConfluencePageKind && a.externalId == k.page + "::" + ShowInt(k.day))
      && (k.MrDay? ==>
            && a.kind == GitHubPullRequestKind
            && a.externalId == k.project + (if k.provider == GitLab then "!" else "#") + ShowInt(k.number)
                               + "::" + ShowInt(k.day))
      && (k.MeetingDay? ==> a.kind == OutlookMeetingKind && a.externalId == k.meeting)
  {
  }

  /** What it says of its events: commits by their ids, a merge request by the title
      of its opening and the first link, a meeting by the bounds of its first event. */
  lemma SynthesizedPayload(k: OrphanKey, es: seq<Event>, reportDate: Day)
    requires es != []
    ensures var p := Synthesize(k, es, reportDate).payload;
      && p.date == k.day
      && |p.eventIds| == |es| && (forall i :: 0 <= i < |es| ==> p.eventIds[i] == es[i].id)
      && (k.RepoDay? ==>
            p.CommitSet? && p.repoPath == k.path && |p.commitShas| == |es|
            && forall i :: 0 <= i < |es| ==> p.commitShas[i] == es[i].externalId)
      && (k.IssueDay? ==> p.JiraIssuePayload? && p.issueKey == k.issue && p.projectKey == k.project)
      && (k.PageDay? ==> p.ConfluencePagePayload? && p.pageId == k.page && p.spaceKey == k.space)
      && (k.MrDay? ==>
            && p.MergeRequest? && p.provider == k.provider && p.number == k.number && p.project == k.project
            && UrlFrom(es, p.url) && exists i: nat :: TitleFrom(es, i) && WithoutLifecycle(es[i].title, p.title))
      && (k.MeetingDay? ==>
            && p.Meeting? && p.outlookEventId == k.meeting && p.title == es[0].title
            && p.startUtc == (if es[0].metadata.startUtc.Some? then es[0].metadata.startUtc.value
                              else es[0].occurredAt)
            && p.endUtc == if es[0].metadata.endUtc.Some? then es[0].metadata.endUtc.value else p.startUtc)
  {
    FirstUrlExactly(es);
    var i := MrTitleExactly(es);
  }
}
