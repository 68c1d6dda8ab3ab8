/** What the sections of a report promise about the bullets in them. */
module RenderLaws {
  import opened Basics
  import opened Coalesce
  import opened Rollup
  import opened Sections
  import opened Render

  // ---- the sections are the bullets, stably sorted ----

  predicate SectionLe(a: Placed, b: Placed) { Index(a.section) <= Index(b.section) }

  /** The pieces of the sections from `lo` to `hi`, section by section. */
  function Gather(ps: seq<Placed>, lo: nat, hi: nat): seq<Placed>
    requires lo <= hi
    decreases hi - lo
  {
    if lo == hi then [] else InSection(ps, lo) + Gather(ps, lo + 1, hi)
  }

  lemma {:induction false} GatherSplits(ps: seq<Placed>, lo: nat, mid: nat, hi: nat)
    requires lo <= mid <= hi
    ensures Gather(ps, lo, hi) == Gather(ps, lo, mid) + Gather(ps, mid, hi)
    decreases mid - lo
  {
    if lo < mid { GatherSplits(ps, lo + 1, mid, hi); }
  }

  lemma {:induction false} GatherElsewhere(p: Placed, ps: seq<Placed>, lo: nat, hi: nat)
    requires lo <= hi && !(lo <= Index(p.section) < hi)
    ensures Gather([p] + ps, lo, hi) == Gather(ps, lo, hi)
    decreases hi - lo
  {
    if lo < hi {
      assert ([p] + ps)[1..] == ps;
      GatherElsewhere(p, ps, lo + 1, hi);
    }
  }

  lemma {:induction false} GatherRange(ps: seq<Placed>, lo: nat, hi: nat)
    requires lo <= hi
    ensures forall p :: p in Gather(ps, lo, hi) ==> lo <= Index(p.section) < hi
    decreases hi - lo
  {
    if lo < hi {
      WithMembers(SectionKey, ps, lo);
      GatherRange(ps, lo + 1, hi);
    }
  }

  lemma {:induction false} InsertBetween(p: Placed, low: seq<Placed>, high: seq<Placed>)
    requires forall q :: q in low ==> !SectionLe(p, q)
    requires forall q :: q in high ==> SectionLe(p, q)
    ensures InsertBy(SectionLe, p, low + high) == low + [p] + high
  {
    if low == [] {
      assert low + high == high;
    } else {
      assert low[0] in low && (low + high)[1..] == low[1..] + high;
      InsertBetween(p, low[1..], high);
    }
  }

  lemma GatherWith(p: Placed, ps: seq<Placed>, hi: nat)
    requires Index(p.section) < hi
    ensures Gather([p] + ps, 0, hi) == Gather(ps, 0, Index(p.section)) + [p] + Gather(ps, Index(p.section), hi)
  {
    var k := Index(p.section);
    GatherSplits([p] + ps, 0, k, hi);
    GatherElsewhere(p, ps, 0, k);
    GatherOwn(p, ps, hi);
  }

  lemma SectionOfFirst(p: Placed, ps: seq<Placed>)
    ensures InSection([p] + ps, Index(p.section)) == [p] + InSection(ps, Index(p.section))
  {
    assert ([p] + ps)[1..] == ps;
  }

  lemma GatherOwn(p: Placed, ps: seq<Placed>, hi: nat)
    requires Index(p.section) < hi
    ensures Gather([p] + ps, Index(p.section), hi) == [p] + Gather(ps, Index(p.section), hi)
  {
    var k := Index(p.section);
    GatherElsewhere(p, ps, k + 1, hi);
    SectionOfFirst(p, ps);
    assert [p] + InSection(ps, k) + Gather(ps, k + 1, hi) == [p] + (InSection(ps, k) + Gather(ps, k + 1, hi));
  }

  lemma InsertGathers(p: Placed, ps: seq<Placed>, hi: nat)
    requires Index(p.section) < hi
    ensures InsertBy(SectionLe, p, Gather(ps, 0, hi)) == Gather([p] + ps, 0, hi)
  {
    var k := Index(p.section);
    GatherSplits(ps, 0, k, hi);
    GatherWith(p, ps, hi);
    GatherRange(ps, 0, k);
    GatherRange(ps, k, hi);
    InsertBetween(p, Gather(ps, 0, k), Gather(ps, k, hi));
  }

  lemma {:induction false} GatherNothing(lo: nat, hi: nat)
    requires lo <= hi
    ensures Gather([], lo, hi) == []
    decreases hi - lo
  {
    if lo < hi { GatherNothing(lo + 1, hi); }
  }

  lemma {:induction false} SortedByGathering(ps: seq<Placed>)
    ensures SortBy(SectionLe, ps) == Gather(ps, 0, COUNT)
  {
    if ps == [] {
      GatherNothing(0, COUNT);
    } else {
      SortedByGathering(ps[1..]);
      InsertGathers(ps[0], ps[1..], COUNT);
      assert ps == [ps[0]] + ps[1..];
    }
  }

  /** All bullets of the sections, top to bottom. */
  function AllBullets(sections: seq<RenderedSection>): seq<Bullet> {
    if sections == [] then [] else AllBullets(sections[..|sections| - 1]) + sections[|sections| - 1].bullets
  }

  /** The bullets that stand for a group, without the summary. */
  function GroupBullets(bs: seq<Bullet>): seq<Bullet> {
    if bs == [] then [] else if bs[0].id.OfGroup? then [bs[0]] + GroupBullets(bs[1..]) else GroupBullets(bs[1..])
  }

  lemma {:induction false} GroupBulletsConcat(a: seq<Bullet>, b: seq<Bullet>)
    ensures GroupBullets(a + b) == GroupBullets(a) + GroupBullets(b)
  {
    if a == [] {
      assert a + b == b;
    } else {
      assert (a + b)[1..] == a[1..] + b;
      GroupBulletsConcat(a[1..], b);
    }
  }

  lemma {:induction false} GroupBulletsKeep(bs: seq<Bullet>)
    requires forall b :: b in bs ==> b.id.OfGroup?
    ensures GroupBullets(bs) == bs
  {
    if bs != [] {
      assert bs[0] in bs;
      GroupBulletsKeep(bs[1..]);
    }
  }

  ghost predicate OfGroups(ps: seq<Placed>) { forall p :: p in ps ==> p.bullet.id.OfGroup? }

  lemma BucketWithoutSummary(ps: seq<Placed>, summary: seq<Bullet>, k: nat)
    requires OfGroups(ps) && GroupBullets(summary) == []
    ensures GroupBullets(BucketOf(ps, summary, k)) == BulletsOf(InSection(ps, k))
  {
    var own := BulletsOf(InSection(ps, k));
    WithMembers(SectionKey, ps, k);
    forall b | b in own ensures b.id.OfGroup? {
      var i :| 0 <= i < |own| && own[i] == b;
      assert InSection(ps, k)[i] in ps;
    }
    GroupBulletsKeep(own);
    GroupBulletsConcat(own, if k == Index(Meetings) then summary else []);
  }

  lemma AllBulletsSnoc(sections: seq<RenderedSection>, s: RenderedSection)
    ensures AllBullets(sections + [s]) == AllBullets(sections) + s.bullets
  {
    assert (sections + [s])[..|sections|] == sections;
  }

  lemma SectionsSnoc(buckets: seq<seq<Bullet>>, n: nat)
    requires n < |buckets| <= COUNT
    ensures GroupBullets(AllBullets(SectionsOf(buckets, n + 1))) ==
      GroupBullets(AllBullets(SectionsOf(buckets, n))) + GroupBullets(buckets[n])
  {
    var before := SectionsOf(buckets, n);
    GroupBulletsConcat(AllBullets(before), buckets[n]);
    if buckets[n] != [] {
      AllBulletsSnoc(before, RenderedSection(ALL[n], buckets[n]));
    } else {
      assert SectionsOf(buckets, n + 1) == before && GroupBullets([]) == [];
    }
  }

  lemma GatherSnoc(ps: seq<Placed>, n: nat)
    ensures BulletsOf(Gather(ps, 0, n + 1)) == BulletsOf(Gather(ps, 0, n)) + BulletsOf(InSection(ps, n))
  {
    GatherSplits(ps, 0, n, n + 1);
    assert Gather(ps, n + 1, n + 1) == [];
    assert Gather(ps, n, n + 1) == InSection(ps, n);
  }

  lemma {:induction false} SectionsGather(ps: seq<Placed>, buckets: seq<seq<Bullet>>, n: nat)
    requires n <= |buckets| <= COUNT
    requires forall k :: 0 <= k < n ==> GroupBullets(buckets[k]) == BulletsOf(InSection(ps, k))
    ensures GroupBullets(AllBullets(SectionsOf(buckets, n))) == BulletsOf(Gather(ps, 0, n))
  {
    if n > 0 {
      SectionsGather(ps, buckets, n - 1);
      SectionsSnoc(buckets, n - 1);
      GatherSnoc(ps, n - 1);
    }
  }

  lemma {:induction false} EventPiecesShape(ctx: Context, g: Group, n: nat)
    requires PerEvent(g) && n <= |g.events| && EventPieces(ctx, g, n).Some?
    ensures var ps := EventPieces(ctx, g, n).value;
      |ps| == n && forall i :: 0 <= i < n ==> Piece(ctx, g, i, [g.events[i].id]) == Some(ps[i])
  {
    if n > 0 { EventPiecesShape(ctx, g, n - 1); }
  }

  /** A bullet and its evidence share the id, which stands for the evidence's events. */
  predicate Joined(p: Placed) {
    p.bullet.id == p.evidence.bulletId && p.bullet.id.OfGroup? && p.bullet.id.section == p.section
    && p.bullet.id.events == SortBy(NatLe, p.evidence.eventIds)
  }

  lemma GroupPiecesJoined(ctx: Context, g: Group)
    requires GroupPieces(ctx, g).Some?
    ensures forall p :: p in GroupPieces(ctx, g).value ==> Joined(p) && p.bullet.id.artifact == g.artifact.id
  {
    if PerEvent(g) { EventPiecesShape(ctx, g, |g.events|); }
  }

  lemma {:induction false} PiecesJoined(ctx: Context, gs: seq<Group>)
    requires Pieces(ctx, gs).Some?
    ensures forall p :: p in Pieces(ctx, gs).value ==>
      Joined(p) && exists i :: 0 <= i < |gs| && gs[i].artifact.id == p.bullet.id.artifact
  {
    if gs != [] {
      var front := gs[..|gs| - 1];
      PiecesJoined(ctx, front);
      GroupPiecesJoined(ctx, gs[|gs| - 1]);
      forall p | p in Pieces(ctx, gs).value
        ensures exists i :: 0 <= i < |gs| && gs[i].artifact.id == p.bullet.id.artifact
      {
        if p in Pieces(ctx, front).value {
          var i :| 0 <= i < |front| && front[i].artifact.id == p.bullet.id.artifact;
          assert gs[i] == front[i];
        }
      }
    }
  }

  /** Top to bottom, and without the meetings summary, the sections are the bullets
      in rollup order stably sorted by section. */
  lemma SectionsAreStablySorted(ctx: Context, gs: seq<Group>)
    requires Pieces(ctx, gs).Some?
    ensures var ps := Pieces(ctx, gs).value;
      GroupBullets(AllBullets(SectionsOf(Buckets(ps, SummaryOf(ctx, gs, ps)), COUNT))) ==
        BulletsOf(SortBy(SectionLe, ps))
  {
    var ps := Pieces(ctx, gs).value;
    PiecesJoined(ctx, gs);
    var summary := SummaryOf(ctx, gs, ps);
    assert summary != [] ==> summary[1..] == [] && summary[0].id.OfSummary?;
    var buckets := Buckets(ps, summary);
    forall k | 0 <= k < COUNT ensures GroupBullets(buckets[k]) == BulletsOf(InSection(ps, k)) {
      BucketWithoutSummary(ps, summary, k);
    }
    SectionsGather(ps, buckets, COUNT);
    SortedByGathering(ps);
  }

  lemma AllIsInOrder(k: nat)
    requires k < COUNT
    ensures Index(ALL[k]) == k
  {
  }

  /** Sections come in order, each once, none of them empty, and each has the
      bullets of its bucket. */
  ghost predicate OrderedAndFull(ss: seq<RenderedSection>, buckets: seq<seq<Bullet>>, n: nat)
    requires n <= |buckets| <= COUNT
  {
    && (forall i :: 0 <= i < |ss| ==>
         ss[i].bullets != [] && Index(ss[i].section) < n && ss[i].bullets == buckets[Index(ss[i].section)])
    && (forall i, j :: 0 <= i < j < |ss| ==> Index(ss[i].section) < Index(ss[j].section))
  }

  lemma OneMoreSection(before: seq<RenderedSection>, buckets: seq<seq<Bullet>>, k: nat)
    requires k < |buckets| <= COUNT && OrderedAndFull(before, buckets, k) && buckets[k] != []
    ensures OrderedAndFull(before + [RenderedSection(ALL[k], buckets[k])], buckets, k + 1)
  {
    AllIsInOrder(k);
  }

  lemma {:induction false} SectionsAreOrderedAndFull(buckets: seq<seq<Bullet>>, n: nat)
    requires n <= |buckets| <= COUNT
    ensures OrderedAndFull(SectionsOf(buckets, n), buckets, n)
  {
    if n > 0 {
      var before := SectionsOf(buckets, n - 1);
      SectionsAreOrderedAndFull(buckets, n - 1);
      if buckets[n - 1] == [] {
        assert SectionsOf(buckets, n) == before;
        MoreRoom(before, buckets, n - 1);
      } else {
        assert SectionsOf(buckets, n) == before + [RenderedSection(ALL[n - 1], buckets[n - 1])];
        OneMoreSection(before, buckets, n - 1);
      }
    }
  }

  lemma MoreRoom(ss: seq<RenderedSection>, buckets: seq<seq<Bullet>>, k: nat)
    requires k < |buckets| <= COUNT && OrderedAndFull(ss, buckets, k)
    ensures OrderedAndFull(ss, buckets, k + 1)
  {
  }

  // ---- evidence ----

  function IdsOfBullets(bs: seq<Bullet>): seq<BulletId> { seq(|bs|, i requires 0 <= i < |bs| => bs[i].id) }

  function IdsOfEvidence(es: seq<Evidence>): seq<BulletId> { seq(|es|, i requires 0 <= i < |es| => es[i].bulletId) }

  lemma RemoveAt<T>(s: seq<T>, k: nat)
    requires k < |s|
    ensures multiset(s) == multiset{s[k]} + multiset(s[..k] + s[k + 1..])
  {
    assert s == s[..k] + [s[k]] + s[k + 1..];
  }

  lemma Cancel<T>(x: T, a: multiset<T>, b: multiset<T>)
    requires multiset{x} + a == multiset{x} + b
    ensures a == b
  {
    assert a == multiset{x} + a - multiset{x};
    assert b == multiset{x} + b - multiset{x};
  }

  lemma BulletsRemoveAt(s: seq<Placed>, k: nat)
    requires k < |s|
    ensures multiset(BulletsOf(s)) == multiset{s[k].bullet} + multiset(BulletsOf(s[..k] + s[k + 1..]))
  {
    RemoveAt(BulletsOf(s), k);
    assert BulletsOf(s)[..k] + BulletsOf(s)[k + 1..] == BulletsOf(s[..k] + s[k + 1..]);
  }

  lemma {:induction false} SameBagSameBullets(a: seq<Placed>, b: seq<Placed>)
    requires multiset(a) == multiset(b)
    ensures multiset(BulletsOf(a)) == multiset(BulletsOf(b))
    decreases |a|
  {
    if a == [] {
      assert |b| == |multiset(b)| == 0;
    } else {
      assert a[0] in multiset(b);
      var k :| 0 <= k < |b| && b[k] == a[0];
      RemoveAt(a, 0);
      RemoveAt(b, k);
      Cancel(a[0], multiset(a[..0] + a[1..]), multiset(b[..k] + b[k + 1..]));
      SameBagSameBullets(a[..0] + a[1..], b[..k] + b[k + 1..]);
      BulletsRemoveAt(a, 0);
      BulletsRemoveAt(b, k);
    }
  }

  /** The bullets of the sections, summary aside, are as many times there as in
      rollup order, where the evidence lists them one for one by id. */
  lemma EvidenceMatchesBullets(ctx: Context, gs: seq<Group>)
    requires Pieces(ctx, gs).Some?
    ensures var ps := Pieces(ctx, gs).value;
      && multiset(GroupBullets(AllBullets(SectionsOf(Buckets(ps, SummaryOf(ctx, gs, ps)), COUNT)))) ==
           multiset(BulletsOf(ps))
      && IdsOfEvidence(EvidenceOf(ps)) == IdsOfBullets(BulletsOf(ps))
  {
    var ps := Pieces(ctx, gs).value;
    PiecesJoined(ctx, gs);
    JoinedIdsAgree(ps);
    SectionsAreStablySorted(ctx, gs);
    SortedBulletsAreTheBullets(ps);
  }

  lemma JoinedIdsAgree(ps: seq<Placed>)
    requires forall p :: p in ps ==> Joined(p)
    ensures IdsOfEvidence(EvidenceOf(ps)) == IdsOfBullets(BulletsOf(ps))
  {
    assert forall i :: 0 <= i < |ps| ==> ps[i] in ps;
  }

  lemma SortedBulletsAreTheBullets(ps: seq<Placed>)
    ensures multiset(BulletsOf(SortBy(SectionLe, ps))) == multiset(BulletsOf(ps))
  {
    SortKeepsElements(SectionLe, ps);
    SameBagSameBullets(SortBy(SectionLe, ps), ps);
  }

  ghost predicate SharesNoEvent(g: Group, h: Group) {
    forall i, j :: 0 <= i < |g.events| && 0 <= j < |h.events| ==> g.events[i].id != h.events[j].id
  }

  /** Two groups whose bullets cannot get the same id. */
  ghost predicate ToldApart(g: Group, h: Group) {
    || g.artifact.id != h.artifact.id
    || FromGroup(g) != FromGroup(h)
    || (PerEvent(g) && PerEvent(h) && SharesNoEvent(g, h))
  }

  ghost predicate DistinctGroups(gs: seq<Group>) {
    && (forall i, j :: 0 <= i < j < |gs| ==> ToldApart(gs[i], gs[j]))
    && (forall g :: g in gs ==> forall i, j :: 0 <= i < j < |g.events| ==> g.events[i].id != g.events[j].id)
  }

  ghost predicate DistinctBullets(ps: seq<Placed>) {
    forall i, j :: 0 <= i < j < |ps| ==> ps[i].bullet.id != ps[j].bullet.id
  }

  lemma GroupBulletsDiffer(ctx: Context, g: Group)
    requires GroupPieces(ctx, g).Some?
    requires forall i, j :: 0 <= i < j < |g.events| ==> g.events[i].id != g.events[j].id
    ensures DistinctBullets(GroupPieces(ctx, g).value)
  {
    if PerEvent(g) {
      EventPiecesShape(ctx, g, |g.events|);
      var ps := GroupPieces(ctx, g).value;
      forall i, j | 0 <= i < j < |ps| ensures ps[i].bullet.id != ps[j].bullet.id {
        OneIdSorts(g.events[i].id);
        OneIdSorts(g.events[j].id);
        assert ps[i].bullet.id.events == [g.events[i].id];
        assert ps[j].bullet.id.events == [g.events[j].id];
      }
    }
  }

  lemma OneIdSorts(id: nat)
    ensures SortBy(NatLe, [id]) == [id]
  {
    assert SortBy(NatLe, [id][1..]) == [];
  }

  /** What the id of a bullet tells about its group. */
  ghost predicate StandsFor(p: Placed, g: Group) {
    && p.bullet.id.OfGroup? && p.bullet.id.artifact == g.artifact.id && p.bullet.id.section == FromGroup(g)
    && (PerEvent(g) ==> exists i :: 0 <= i < |g.events| && p.bullet.id.events == [g.events[i].id])
  }

  lemma GroupPiecesStandFor(ctx: Context, g: Group)
    requires GroupPieces(ctx, g).Some?
    ensures forall p :: p in GroupPieces(ctx, g).value ==> StandsFor(p, g)
  {
    if PerEvent(g) {
      EventPiecesShape(ctx, g, |g.events|);
      var ps := GroupPieces(ctx, g).value;
      forall p | p in ps ensures StandsFor(p, g) {
        var i :| 0 <= i < |ps| && ps[i] == p;
        OneIdSorts(g.events[i].id);
        assert p.bullet.id.events == [g.events[i].id];
      }
    }
  }

  lemma {:induction false} PiecesStandFor(ctx: Context, gs: seq<Group>)
    requires Pieces(ctx, gs).Some?
    ensures forall p :: p in Pieces(ctx, gs).value ==> exists i :: 0 <= i < |gs| && StandsFor(p, gs[i])
  {
    if gs != [] {
      var front := gs[..|gs| - 1];
      PiecesStandFor(ctx, front);
      GroupPiecesStandFor(ctx, gs[|gs| - 1]);
      forall p | p in Pieces(ctx, gs).value ensures exists i :: 0 <= i < |gs| && StandsFor(p, gs[i]) {
        if p in Pieces(ctx, front).value {
          var i :| 0 <= i < |front| && StandsFor(p, front[i]);
          assert gs[i] == front[i];
        } else {
          assert StandsFor(p, gs[|gs| - 1]);
        }
      }
    }
  }

  lemma ApartHasOtherId(p: Placed, g: Group, q: Placed, h: Group)
    requires StandsFor(p, g) && StandsFor(q, h) && ToldApart(g, h)
    ensures p.bullet.id != q.bullet.id
  {
    if PerEvent(g) && PerEvent(h) {
      var i :| 0 <= i < |g.events| && p.bullet.id.events == [g.events[i].id];
      var j :| 0 <= j < |h.events| && q.bullet.id.events == [h.events[j].id];
    }
  }

  /** Groups that are told apart, each with distinct events, give bullets with
      distinct ids, so the evidence of a bullet is found by its id. */
  lemma {:induction false} BulletIdsAreUnique(ctx: Context, gs: seq<Group>)
    requires Pieces(ctx, gs).Some? && DistinctGroups(gs)
    ensures DistinctBullets(Pieces(ctx, gs).value)
  {
    if gs != [] {
      var (front, last) := (gs[..|gs| - 1], gs[|gs| - 1]);
      BulletIdsAreUnique(ctx, front);
      PiecesStandFor(ctx, front);
      GroupPiecesStandFor(ctx, last);
      assert last in gs;
      GroupBulletsDiffer(ctx, last);
      var (a, b) := (Pieces(ctx, front).value, GroupPieces(ctx, last).value);
      forall p, q | p in a && q in b ensures p.bullet.id != q.bullet.id {
        var i :| 0 <= i < |front| && StandsFor(p, front[i]);
        assert gs[i] == front[i];
        ApartHasOtherId(p, front[i], q, last);
      }
      DistinctConcat(a, b);
    }
  }

  lemma DistinctConcat(a: seq<Placed>, b: seq<Placed>)
    requires DistinctBullets(a) && DistinctBullets(b)
    requires forall p, q :: p in a && q in b ==> p.bullet.id != q.bullet.id
    ensures DistinctBullets(a + b)
  {
    assert forall i :: 0 <= i < |a| ==> a[i] in a;
    assert forall i :: 0 <= i < |b| ==> b[i] in b;
  }

  // ---- what is shown at all ----

  /** The group puts a bullet into the section. */
  predicate Feeds(ctx: Context, g: Group, k: nat) { Index(FromGroup(g)) == k && GroupPieces(ctx, g) != Some([]) }

  lemma LastFeeds(ctx: Context, before: seq<Placed>, last: Group, k: nat)
    requires GroupPieces(ctx, last).Some?
    ensures InSection(before + GroupPieces(ctx, last).value, k) != [] <==>
      InSection(before, k) != [] || Feeds(ctx, last, k)
  {
    InSectionConcat(before, GroupPieces(ctx, last).value, k);
    GroupInOneSection(ctx, last);
    OneSection(GroupPieces(ctx, last).value, FromGroup(last), k);
  }

  lemma {:induction false} PiecesIn(ctx: Context, gs: seq<Group>, k: nat)
    requires Pieces(ctx, gs).Some?
    ensures InSection(Pieces(ctx, gs).value, k) != [] <==> exists i :: 0 <= i < |gs| && Feeds(ctx, gs[i], k)
  {
    if gs != [] {
      var (front, last) := (gs[..|gs| - 1], gs[|gs| - 1]);
      PiecesIn(ctx, front, k);
      LastFeeds(ctx, Pieces(ctx, front).value, last, k);
      assert forall i :: 0 <= i < |front| ==> gs[i] == front[i];
    }
  }

  lemma {:induction false} MinutesNeedAMeeting(gs: seq<Group>)
    ensures MeetingMinutes(gs) > 0 ==> exists i :: 0 <= i < |gs| && gs[i].artifact.payload.Meeting?
  {
    if gs != [] {
      var front := gs[..|gs| - 1];
      MinutesNeedAMeeting(front);
      if MeetingMinutes(front) > 0 {
        var i :| 0 <= i < |front| && front[i].artifact.payload.Meeting?;
        assert gs[i] == front[i];
      }
    }
  }

  /** The summary is shown exactly when the meetings took at least a minute. */
  lemma SummaryExactlyWhenTimed(ctx: Context, gs: seq<Group>)
    requires Pieces(ctx, gs).Some?
    ensures SummaryOf(ctx, gs, Pieces(ctx, gs).value) != [] <==> MeetingMinutes(gs) > 0
  {
    if MeetingMinutes(gs) > 0 {
      MinutesNeedAMeeting(gs);
      var i :| 0 <= i < |gs| && gs[i].artifact.payload.Meeting?;
      PiecesIn(ctx, gs, Index(Meetings));
      assert Feeds(ctx, gs[i], Index(Meetings));
    }
  }

  lemma {:induction false} EmptyExactly(buckets: seq<seq<Bullet>>, n: nat)
    requires n <= |buckets| <= COUNT
    ensures SectionsOf(buckets, n) == [] <==> forall k :: 0 <= k < n ==> buckets[k] == []
  {
    if n > 0 { EmptyExactly(buckets, n - 1); }
  }

  lemma PiecesOfGroupEmpty(ctx: Context, g: Group)
    requires GroupPieces(ctx, g).Some?
    ensures GroupPieces(ctx, g) == Some([]) <==> PerEvent(g) && g.events == []
  {
    if PerEvent(g) { EventPiecesShape(ctx, g, |g.events|); }
  }

  lemma NothingInAnySection(ps: seq<Placed>)
    ensures ps == [] <==> forall k :: 0 <= k < COUNT ==> InSection(ps, k) == []
  {
    if ps != [] { assert InSection(ps, Index(ps[0].section)) != []; }
  }

  lemma {:induction false} PiecesEmpty(ctx: Context, gs: seq<Group>)
    requires Pieces(ctx, gs).Some?
    ensures Pieces(ctx, gs).value == [] <==> forall i :: 0 <= i < |gs| ==> PerEvent(gs[i]) && gs[i].events == []
  {
    if gs != [] {
      var (front, last) := (gs[..|gs| - 1], gs[|gs| - 1]);
      PiecesEmpty(ctx, front);
      PiecesOfGroupEmpty(ctx, last);
      assert forall i :: 0 <= i < |front| ==> gs[i] == front[i];
    }
  }

  /** A report with groups can still have no section: exactly when every group is
      of a kind with one bullet per event and has no events. */
  lemma NoSectionExactly(ctx: Context, gs: seq<Group>)
    requires Pieces(ctx, gs).Some?
    ensures var ps := Pieces(ctx, gs).value;
      SectionsOf(Buckets(ps, SummaryOf(ctx, gs, ps)), COUNT) == [] <==>
        forall i :: 0 <= i < |gs| ==> PerEvent(gs[i]) && gs[i].events == []
  {
    var ps := Pieces(ctx, gs).value;
    var buckets := Buckets(ps, SummaryOf(ctx, gs, ps));
    EmptyExactly(buckets, COUNT);
    PiecesEmpty(ctx, gs);
    NothingInAnySection(ps);
    forall k | 0 <= k < COUNT ensures buckets[k] == [] <==> InSection(ps, k) == [] {
      BucketEmptyExactly(ctx, gs, ps, k);
    }
  }

  lemma BucketEmptyExactly(ctx: Context, gs: seq<Group>, ps: seq<Placed>, k: nat)
    ensures BucketOf(ps, SummaryOf(ctx, gs, ps), k) == [] <==> InSection(ps, k) == []
  {
  }

  /** The bullet of a redacted event says nothing of it, whatever the wording. */
  lemma RedactedShowsNothing(ctx: Context, g: Group, i: nat)
    requires PerEvent(g) && i < |g.events| && g.events[i].privacy.RedactedPrivateRepo? && GroupPieces(ctx, g).Some?
    ensures |GroupPieces(ctx, g).value| == |g.events| && GroupPieces(ctx, g).value[i].bullet.text == REDACTED
  {
    EventPiecesShape(ctx, g, |g.events|);
  }
}
