/** What each bullet of a group says, field by field, and what the meetings add up to. */
module RenderDetails {
  import opened Basics
  import opened Activity
  import opened Coalesce
  import Text
  import opened RollupKeys
  import opened Rollup
  import opened Sections
  import opened Render
  import opened RenderLaws

  // ---- the bullets of a group ----

  /** Groups with one bullet per event. */
  predicate OneEach(p: Payload) { p.CommitSet? || p.JiraIssuePayload? || p.ConfluencePagePayload? }

  /** The wording of this bullet is asked for and missing. */
  predicate Fails(ctx: Context, g: Group, i: nat) {
    ctx.wording(g, i).None?
      && !(OneEach(g.artifact.payload) && i < |g.events| && g.events[i].privacy == RedactedPrivateRepo)
  }

  function BulletCount(g: Group): nat { if OneEach(g.artifact.payload) then |g.events| else 1 }

  /** A page group shows under its page unless every event is an unattached comment. */
  ghost predicate InRightSection(g: Group, s: Section) {
    match g.artifact.payload
    case CommitSet(_, _, _, _) => s == Commits
    case JiraIssuePayload(_, _, _, _) => s == JiraIssues
    case MergeRequest(_, _, _, _, _, _, _) => s == MergeRequests
    case Meeting(_, _, _, _, _, _) => s == Meetings
    case ConfluencePagePayload(_, _, _, _) =>
      && (s == UnlinkedActivity || s == ConfluencePages)
      && (s == UnlinkedActivity <==>
            g.events != [] && forall e :: e in g.events ==> e.kind == ConfluenceComment && e.metadata.unattached)
  }

  /** The `i`-th bullet of a group, on its own fields. */
  ghost predicate IsPiece(ctx: Context, g: Group, i: nat, p: Placed) {
    && InRightSection(g, p.section)
    && p.evidence.eventIds == (if OneEach(g.artifact.payload) && i < |g.events| then [g.events[i].id]
                               else seq(|g.events|, k requires 0 <= k < |g.events| => g.events[k].id))
    && p.bullet.id.OfGroup? && p.bullet.id == p.evidence.bulletId
    && p.bullet.id.template == ctx.template && p.bullet.id.section == p.section
    && p.bullet.id.artifact == g.artifact.id
    && multiset(p.bullet.id.events) == multiset(p.evidence.eventIds)
    && (forall a, b :: 0 <= a < b < |p.bullet.id.events| ==> p.bullet.id.events[a] <= p.bullet.id.events[b])
    && (if OneEach(g.artifact.payload) && i < |g.events| && g.events[i].privacy == RedactedPrivateRepo
          then p.bullet.text == "(private work)" else ctx.wording(g, i) == Some(p.bullet.text))
    && (if g.artifact.sourceId in ctx.kinds then p.bullet.sourceKind == Some(ctx.kinds[g.artifact.sourceId])
        else p.bullet.sourceKind == None)
  }

  lemma SectionIsRight(g: Group)
    ensures InRightSection(g, FromGroup(g))
  {
    if forall i :: 0 <= i < |g.events| ==> Stray(g.events[i]) {
      forall e | e in g.events ensures e.kind == ConfluenceComment && e.metadata.unattached {
        var i :| 0 <= i < |g.events| && g.events[i] == e;
      }
    } else {
      var i :| 0 <= i < |g.events| && !Stray(g.events[i]);
      assert g.events[i] in g.events;
    }
  }

  lemma SortedIds(ids: seq<nat>)
    ensures multiset(SortBy(NatLe, ids)) == multiset(ids)
    ensures forall a, b :: 0 <= a < b < |SortBy(NatLe, ids)| ==> SortBy(NatLe, ids)[a] <= SortBy(NatLe, ids)[b]
  {
    SortKeepsElements(NatLe, ids);
    SortSorts(NatLe, ids);
  }

  lemma PieceIs(ctx: Context, g: Group, i: nat)
    requires i < BulletCount(g)
    ensures var ids := if OneEach(g.artifact.payload) then [g.events[i].id] else EventIds(g.events);
      && (Piece(ctx, g, i, ids).None? <==> Fails(ctx, g, i))
      && (Piece(ctx, g, i, ids).Some? ==> IsPiece(ctx, g, i, Piece(ctx, g, i, ids).value))
  {
    SectionIsRight(g);
    SortedIds(if OneEach(g.artifact.payload) then [g.events[i].id] else EventIds(g.events));
  }

  lemma {:induction false} EventPiecesFail(ctx: Context, g: Group, n: nat)
    requires OneEach(g.artifact.payload) && n <= |g.events|
    ensures EventPieces(ctx, g, n).None? <==> exists i :: 0 <= i < n && Fails(ctx, g, i)
  {
    if n > 0 {
      EventPiecesFail(ctx, g, n - 1);
      PieceIs(ctx, g, n - 1);
    }
  }

  /** A group has a bullet per event or one for all, each as its fields say; and it
      fails exactly when a wording it needs is missing. */
  lemma GroupPiecesExactly(ctx: Context, g: Group)
    ensures GroupPieces(ctx, g).None? <==> exists i :: 0 <= i < BulletCount(g) && Fails(ctx, g, i)
    ensures GroupPieces(ctx, g).Some? ==>
      |GroupPieces(ctx, g).value| == BulletCount(g)
    ensures GroupPieces(ctx, g).Some? ==>
      forall i :: 0 <= i < BulletCount(g) ==> IsPiece(ctx, g, i, GroupPieces(ctx, g).value[i])
  {
    if OneEach(g.artifact.payload) {
      EventPiecesFail(ctx, g, |g.events|);
      if GroupPieces(ctx, g).Some? {
        EventPiecesShape(ctx, g, |g.events|);
        forall i | 0 <= i < |g.events| ensures IsPiece(ctx, g, i, GroupPieces(ctx, g).value[i]) { PieceIs(ctx, g, i); }
      }
    } else {
      PieceIs(ctx, g, 0);
    }
  }

  lemma {:induction false} PiecesFailExactly(ctx: Context, gs: seq<Group>)
    ensures Pieces(ctx, gs).None? <==>
      exists n, i :: 0 <= n < |gs| && 0 <= i < BulletCount(gs[n]) && Fails(ctx, gs[n], i)
  {
    if gs != [] {
      var front := gs[..|gs| - 1];
      PiecesFailExactly(ctx, front);
      GroupPiecesExactly(ctx, gs[|gs| - 1]);
      if n, i :| 0 <= n < |front| && 0 <= i < BulletCount(front[n]) && Fails(ctx, front[n], i) {
        assert gs[n] == front[n];
      }
      if n, i :| 0 <= n < |gs| && 0 <= i < BulletCount(gs[n]) && Fails(ctx, gs[n], i) {
        if n < |front| { assert front[n] == gs[n]; }
      }
    }
  }

  /** Every bullet is one of a group's. */
  lemma {:induction false} PieceSource(ctx: Context, gs: seq<Group>, p: Placed) returns (n: nat, i: nat)
    requires Pieces(ctx, gs).Some? && p in Pieces(ctx, gs).value
    ensures n < |gs| && i < BulletCount(gs[n]) && IsPiece(ctx, gs[n], i, p)
  {
    var (front, last) := (gs[..|gs| - 1], gs[|gs| - 1]);
    if p in Pieces(ctx, front).value {
      n, i := PieceSource(ctx, front, p);
    } else {
      GroupPiecesExactly(ctx, last);
      n := |gs| - 1;
      i :| 0 <= i < BulletCount(last) && GroupPieces(ctx, last).value[i] == p;
    }
  }

  /** And every bullet of a group is there. */
  lemma {:induction false} PieceExists(ctx: Context, gs: seq<Group>, n: nat, i: nat) returns (p: Placed)
    requires Pieces(ctx, gs).Some? && n < |gs| && i < BulletCount(gs[n])
    ensures p in Pieces(ctx, gs).value && IsPiece(ctx, gs[n], i, p)
  {
    var (front, last) := (gs[..|gs| - 1], gs[|gs| - 1]);
    if n < |front| {
      p := PieceExists(ctx, front, n, i);
    } else {
      GroupPiecesExactly(ctx, last);
      p := GroupPieces(ctx, last).value[i];
    }
  }

  /** Bullets come group by group, in the order of the groups. */
  lemma {:induction false} PiecesInOrder(ctx: Context, a: seq<Group>, b: seq<Group>)
    ensures Pieces(ctx, a + b).None? <==> Pieces(ctx, a).None? || Pieces(ctx, b).None?
    ensures Pieces(ctx, a + b).Some? ==> Pieces(ctx, a + b).value == Pieces(ctx, a).value + Pieces(ctx, b).value
    decreases |b|
  {
    if b == [] {
      assert a + b == a;
    } else {
      assert (a + b)[..|a + b| - 1] == a + b[..|b| - 1];
      PiecesInOrder(ctx, a, b[..|b| - 1]);
    }
  }

  lemma PiecesOfOne(ctx: Context, g: Group)
    ensures Pieces(ctx, [g]) == GroupPieces(ctx, g)
  {
    assert [g][..|[g]| - 1] == [];
    if GroupPieces(ctx, g).Some? { assert [] + GroupPieces(ctx, g).value == GroupPieces(ctx, g).value; }
  }

  // ---- from pieces to sections ----

  lemma BulletsMembers(ps: seq<Placed>, k: nat, b: Bullet)
    ensures b in BulletsOf(InSection(ps, k)) <==> exists p :: p in ps && Index(p.section) == k && p.bullet == b
  {
    WithMembers(SectionKey, ps, k);
    var own := InSection(ps, k);
    if b in BulletsOf(own) {
      var i :| 0 <= i < |BulletsOf(own)| && BulletsOf(own)[i] == b;
      assert own[i] in own;
    }
    if p :| p in ps && Index(p.section) == k && p.bullet == b {
      assert p in own;
      var i :| 0 <= i < |own| && own[i] == p;
      assert BulletsOf(own)[i] == b;
    }
  }

  /** The sections that are built from the groups. */
  ghost function Report(ctx: Context, gs: seq<Group>): seq<RenderedSection>
    requires Pieces(ctx, gs).Some?
  {
    var ps := Pieces(ctx, gs).value;
    SectionsOf(Buckets(ps, SummaryOf(ctx, gs, ps)), COUNT)
  }

  lemma ReportSection(ctx: Context, gs: seq<Group>, s: RenderedSection)
    requires Pieces(ctx, gs).Some? && s in Report(ctx, gs)
    ensures var ps := Pieces(ctx, gs).value;
      s.bullets != [] && s.bullets == BucketOf(ps, SummaryOf(ctx, gs, ps), Index(s.section))
  {
    var ps := Pieces(ctx, gs).value;
    var buckets := Buckets(ps, SummaryOf(ctx, gs, ps));
    SectionsAreOrderedAndFull(buckets, COUNT);
    var i :| 0 <= i < |Report(ctx, gs)| && Report(ctx, gs)[i] == s;
  }

  lemma {:induction false} FullBucketIsShown(buckets: seq<seq<Bullet>>, n: nat, s: Section)
    requires n <= |buckets| <= COUNT && Index(s) < n && buckets[Index(s)] != []
    ensures RenderedSection(s, buckets[Index(s)]) in SectionsOf(buckets, n)
  {
    if Index(s) < n - 1 { FullBucketIsShown(buckets, n - 1, s); }
  }

  lemma SectionInBullet(ctx: Context, gs: seq<Group>, p: Placed)
    requires Pieces(ctx, gs).Some? && p in Pieces(ctx, gs).value
    ensures p.bullet.id.OfGroup? && p.bullet.id.section == p.section
  {
    var n, i := PieceSource(ctx, gs, p);
  }

  /** A bullet is shown under its own section and under no other. */
  lemma ShownUnderItsSection(ctx: Context, gs: seq<Group>, p: Placed)
    requires Pieces(ctx, gs).Some? && p in Pieces(ctx, gs).value
    ensures exists s :: s in Report(ctx, gs) && s.section == p.section
    ensures forall s :: s in Report(ctx, gs) ==> (p.bullet in s.bullets <==> s.section == p.section)
  {
    var ps := Pieces(ctx, gs).value;
    var summary := SummaryOf(ctx, gs, ps);
    SectionInBullet(ctx, gs, p);
    forall s | s in Report(ctx, gs) ensures p.bullet in s.bullets <==> s.section == p.section {
      ReportSection(ctx, gs, s);
      BulletsMembers(ps, Index(s.section), p.bullet);
      if p.bullet in BulletsOf(InSection(ps, Index(s.section))) {
        var q :| q in ps && Index(q.section) == Index(s.section) && q.bullet == p.bullet;
        SectionInBullet(ctx, gs, q);
      }
    }
    BulletsMembers(ps, Index(p.section), p.bullet);
    FullBucketIsShown(Buckets(ps, summary), COUNT, p.section);
  }

  /** Top to bottom: commits, merge requests, meetings, issues, pages, unlinked. */
  lemma SectionsComeInOrder(ctx: Context, gs: seq<Group>, a: nat, b: nat) returns (m: nat, n: nat)
    requires Pieces(ctx, gs).Some? && a < b < |Report(ctx, gs)|
    ensures m < n < 6
    ensures var order := [Commits, MergeRequests, Meetings, JiraIssues, ConfluencePages, UnlinkedActivity];
      order[m] == Report(ctx, gs)[a].section && order[n] == Report(ctx, gs)[b].section
  {
    var ps := Pieces(ctx, gs).value;
    SectionsAreOrderedAndFull(Buckets(ps, SummaryOf(ctx, gs, ps)), COUNT);
    m, n := Index(Report(ctx, gs)[a].section), Index(Report(ctx, gs)[b].section);
  }

  // ---- the meetings summary ----

  /** A meeting lasts the whole minutes between its bounds, and nothing else lasts. */
  lemma MinutesExactly(g: Group)
    ensures !g.artifact.payload.Meeting? ==> MinutesOf(g) == 0
    ensures g.artifact.payload.Meeting? && g.artifact.payload.endUtc <= g.artifact.payload.startUtc ==>
      MinutesOf(g) == 0
    ensures g.artifact.payload.Meeting? && g.artifact.payload.endUtc > g.artifact.payload.startUtc ==>
      var taken := g.artifact.payload.endUtc - g.artifact.payload.startUtc;
      MinutesOf(g) * 60_000_000_000 <= taken < (MinutesOf(g) + 1) * 60_000_000_000
  {
  }

  lemma {:induction false} MinutesAdd(a: seq<Group>, b: seq<Group>)
    ensures MeetingMinutes(a + b) == MeetingMinutes(a) + MeetingMinutes(b)
    decreases |b|
  {
    if b == [] {
      assert a + b == a;
    } else {
      assert (a + b)[..|a + b| - 1] == a + b[..|b| - 1];
      MinutesAdd(a, b[..|b| - 1]);
    }
  }

  /** The minutes of a day are those of any one group and of all the others. */
  lemma MinutesAddUp(gs: seq<Group>, k: nat)
    requires k < |gs|
    ensures MeetingMinutes([]) == 0
    ensures MeetingMinutes(gs) == MinutesOf(gs[k]) + MeetingMinutes(gs[..k] + gs[k + 1..])
  {
    assert gs == gs[..k] + [gs[k]] + gs[k + 1..];
    MinutesAdd(gs[..k] + [gs[k]], gs[k + 1..]);
    MinutesAdd(gs[..k], [gs[k]]);
    MinutesAdd(gs[..k], gs[k + 1..]);
    assert [gs[k]][..0] == [];
  }

  /** The meetings end with their total, as hours, minutes and a share of eight
      hours, if it is at least a minute; every other bullet stands for a group. */
  lemma SummarySays(ctx: Context, gs: seq<Group>, s: RenderedSection)
    requires Pieces(ctx, gs).Some? && s in Report(ctx, gs)
    ensures var (m, n) := (MeetingMinutes(gs), |s.bullets| - 1);
      if s.section == Meetings && m > 0 then
        && n >= 1 && s.bullets[n].id == OfSummary(ctx.template, m) && s.bullets[n].sourceKind == None
        && s.bullets[n].text == "Total time in meetings: " + Text.ShowInt(m / 60) + "h " + Text.ShowInt(m % 60)
             + "m / 8h (" + Text.ShowInt(m * 100 / 480) + "%)"
        && forall b :: b in s.bullets[..n] ==> b.id.OfGroup?
      else
        forall b :: b in s.bullets ==> b.id.OfGroup?
  {
    var ps := Pieces(ctx, gs).value;
    var own := BulletsOf(InSection(ps, Index(s.section)));
    ReportSection(ctx, gs, s);
    forall b | b in own ensures b.id.OfGroup? {
      BulletsMembers(ps, Index(s.section), b);
      var p :| p in ps && Index(p.section) == Index(s.section) && p.bullet == b;
      SectionInBullet(ctx, gs, p);
    }
    SummaryExactlyWhenTimed(ctx, gs);
    if s.section == Meetings && MeetingMinutes(gs) > 0 {
      assert InSection(ps, Index(Meetings)) != [];
      assert s.bullets == own + [SummaryBullet(ctx.template, MeetingMinutes(gs))];
      assert s.bullets[..|s.bullets| - 1] == own;
    } else {
      assert s.bullets == own;
    }
  }
}
