/** Report sections, and the bullets each group of the rollup contributes. Bullet
    wording comes from a template engine and is an input; a bullet id is kept as
    the tuple it is hashed from. */
module Sections {
  import opened Basics
  import opened Activity
  import Text
  import opened RollupKeys
  import opened Rollup

  datatype Section = Commits | MergeRequests | Meetings | JiraIssues | ConfluencePages | UnlinkedActivity

  const COUNT: nat := 6

  const ALL: seq<Section> := [Commits, MergeRequests, Meetings, JiraIssues, ConfluencePages, UnlinkedActivity]

  function Index(s: Section): (i: nat)
    ensures i < COUNT && ALL[i] == s
  {
    match s
    case Commits => 0
    case MergeRequests => 1
    case Meetings => 2
    case JiraIssues => 3
    case ConfluencePages => 4
    case UnlinkedActivity => 5
  }

  function FromPayload(p: Payload): Section {
    match p
    case CommitSet(_, _, _, _) => Commits
    case JiraIssuePayload(_, _, _, _) => JiraIssues
    case ConfluencePagePayload(_, _, _, _) => ConfluencePages
    case MergeRequest(_, _, _, _, _, _, _) => MergeRequests
    case Meeting(_, _, _, _, _, _) => Meetings
  }

  predicate Stray(e: Event) { e.kind.ConfluenceComment? && e.metadata.unattached }

  /** A page all of whose events are comments without a page is no page at all. */
  function FromGroup(g: Group): Section {
    if
      && g.artifact.payload.ConfluencePagePayload?
      && g.events != []
      && forall i :: 0 <= i < |g.events| ==> Stray(g.events[i])
    then UnlinkedActivity
    else FromPayload(g.artifact.payload)
  }

  // ---- bullets ----

  datatype BulletId =
    | OfGroup(template: string, section: Section, artifact: ArtifactId, events: seq<nat>)
    | OfSummary(template: string, minutes: nat)

  type SourceKind = nat

  datatype Bullet = Bullet(id: BulletId, text: string, sourceKind: Option<SourceKind>)

  datatype Evidence = Evidence(bulletId: BulletId, eventIds: seq<nat>)

  datatype Placed = Placed(section: Section, bullet: Bullet, evidence: Evidence)

  /** The wording of a group's bullet, per event where there is one bullet per
      event; the template engine may fail. */
  datatype Context = Context(template: string, kinds: map<SourceId, SourceKind>,
                             wording: (Group, nat) -> Option<string>)

  predicate PerEvent(g: Group) {
    g.artifact.payload.CommitSet? || g.artifact.payload.JiraIssuePayload? || g.artifact.payload.ConfluencePagePayload?
  }

  const REDACTED: string := "(private work)"

  function TextOf(ctx: Context, g: Group, i: nat): Option<string>
    requires PerEvent(g) ==> i < |g.events|
  {
    if PerEvent(g) && g.events[i].privacy.RedactedPrivateRepo? then Some(REDACTED) else ctx.wording(g, i)
  }

  function Piece(ctx: Context, g: Group, i: nat, ids: seq<nat>): Option<Placed>
    requires PerEvent(g) ==> i < |g.events|
  {
    var id := OfGroup(ctx.template, FromGroup(g), g.artifact.id, SortBy(NatLe, ids));
    var kind := if g.artifact.sourceId in ctx.kinds then Some(ctx.kinds[g.artifact.sourceId]) else None;
    var text := TextOf(ctx, g, i);
    if text.None? then None else Some(Placed(FromGroup(g), Bullet(id, text.value, kind), Evidence(id, ids)))
  }

  /** The pieces of the first `n` events; nothing at all if one fails. */
  function EventPieces(ctx: Context, g: Group, n: nat): Option<seq<Placed>>
    requires PerEvent(g) && n <= |g.events|
  {
    if n == 0 then Some([])
    else
      var before := EventPieces(ctx, g, n - 1);
      var last := Piece(ctx, g, n - 1, [g.events[n - 1].id]);
      if before.None? || last.None? then None else Some(before.value + [last.value])
  }

  function GroupPieces(ctx: Context, g: Group): Option<seq<Placed>> {
    if PerEvent(g) then EventPieces(ctx, g, |g.events|)
    else
      var piece := Piece(ctx, g, 0, EventIds(g.events));
      if piece.None? then None else Some([piece.value])
  }

  function Pieces(ctx: Context, gs: seq<Group>): Option<seq<Placed>> {
    if gs == [] then Some([])
    else
      var before := Pieces(ctx, gs[..|gs| - 1]);
      var last := GroupPieces(ctx, gs[|gs| - 1]);
      if before.None? || last.None? then None else Some(before.value + last.value)
  }

  // ---- the meetings summary ----

  const NANOS_PER_MINUTE: int := 60_000_000_000

  function MinutesOf(g: Group): nat {
    if !g.artifact.payload.Meeting? || g.artifact.payload.endUtc <= g.artifact.payload.startUtc then 0
    else (g.artifact.payload.endUtc - g.artifact.payload.startUtc) / NANOS_PER_MINUTE
  }

  function MeetingMinutes(gs: seq<Group>): nat {
    if gs == [] then 0 else MeetingMinutes(gs[..|gs| - 1]) + MinutesOf(gs[|gs| - 1])
  }

  function SummaryBullet(template: string, minutes: nat): Bullet {
    Bullet(OfSummary(template, minutes),
           "Total time in meetings: " + Text.ShowInt(minutes / 60) + "h " + Text.ShowInt(minutes % 60) + "m / 8h ("
           + Text.ShowInt(minutes * 100 / 480) + "%)",
           None)
  }
}
