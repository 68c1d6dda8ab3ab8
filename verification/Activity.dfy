/** Activity events, the normalised records every connector produces. Ids and
    instants are integers; of an event's metadata only the attributes the report
    engine reads are named. */
module Activity {
  import opened Basics

  datatype ActivityKind =
    | CommitAuthored
    | MrOpened | MrMerged | MrClosed | MrReviewComment | MrApproved
    | IssueOpened | IssueClosed | IssueComment
    | JiraIssueTransitioned | JiraIssueCommented | JiraIssueAssigned | JiraIssueUnassigned | JiraIssueCreated
    | ConfluencePageCreated | ConfluencePageEdited | ConfluenceComment
    | GitHubPullRequestOpened | GitHubPullRequestMerged | GitHubPullRequestClosed
    | GitHubPullRequestReviewed | GitHubPullRequestCommented
    | GitHubIssueOpened | GitHubIssueClosed | GitHubIssueCommented | GitHubIssueAssigned
    | OutlookMeetingAttended

  datatype EntityKind =
    | Repo | Project | Target
    | JiraProject | JiraIssue
    | ConfluenceSpace | ConfluencePage | ConfluenceCommentEntity
    | GitHubRepo | GitHubPullRequest | GitHubIssue
    | OutlookEvent | Workspace
    | Other(name: string)

  datatype EntityRef = EntityRef(kind: EntityKind, externalId: string, caption: Option<string>)

  datatype Link = Link(url: string, caption: Option<string>)

  datatype Actor = Actor(displayName: string, email: Option<string>, externalId: Option<string>)

  datatype Privacy = Normal | RedactedPrivateRepo

  datatype Metadata = Metadata(unattached: bool, startUtc: Option<int>, endUtc: Option<int>, rest: nat)

  type SourceId = nat

  datatype Event = Event(
    id: nat,
    sourceId: SourceId,
    externalId: string,
    kind: ActivityKind,
    occurredAt: int,
    actor: Actor,
    title: string,
    body: Option<string>,
    links: seq<Link>,
    entities: seq<EntityRef>,
    parent: Option<string>,
    metadata: Metadata,
    privacy: Privacy)

  const NANOS_PER_DAY: int := 86_400_000_000_000

  type Day = int

  /** The UTC day of an instant, as a day number. */
  function DayOf(instant: int): Day {
    instant / NANOS_PER_DAY
  }

  /** The first entity of a kind, as the passes look it up. */
  function FirstEntity(entities: seq<EntityRef>, kind: EntityKind): Option<EntityRef> {
    if entities == [] then None
    else if entities[0].kind == kind then Some(entities[0])
    else FirstEntity(entities[1..], kind)
  }

  lemma {:induction false} FirstEntityIsFirst(entities: seq<EntityRef>, kind: EntityKind)
    ensures FirstEntity(entities, kind).None? <==> forall i :: 0 <= i < |entities| ==> entities[i].kind != kind
    ensures FirstEntity(entities, kind).Some? ==> exists i ::
      && 0 <= i < |entities| && entities[i].kind == kind && FirstEntity(entities, kind) == Some(entities[i])
      && forall j :: 0 <= j < i ==> entities[j].kind != kind
  {
    if entities != [] && entities[0].kind != kind {
      var rest := entities[1..];
      FirstEntityIsFirst(rest, kind);
      assert forall i :: 0 < i < |entities| ==> entities[i] == rest[i - 1];
      if FirstEntity(rest, kind).Some? {
        var i :| 0 <= i < |rest| && rest[i].kind == kind && FirstEntity(rest, kind) == Some(rest[i])
                 && forall j :: 0 <= j < i ==> rest[j].kind != kind;
        assert entities[i + 1] == rest[i];
      }
    }
  }
}
