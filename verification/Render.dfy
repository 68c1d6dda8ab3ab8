/** Building the sections of a report, and what the result promises. */
module Render {
  import opened Basics
  import opened Coalesce
  import opened RollupKeys
  import opened Rollup
  import opened Sections

  datatype RenderedSection = RenderedSection(section: Section, bullets: seq<Bullet>)

  function SectionKey(p: Placed): Option<nat> { Some(Index(p.section)) }

  function InSection(ps: seq<Placed>, k: nat): seq<Placed> { With(SectionKey, ps, k) }

  function BulletsOf(ps: seq<Placed>): seq<Bullet> { seq(|ps|, i requires 0 <= i < |ps| => ps[i].bullet) }

  function EvidenceOf(ps: seq<Placed>): seq<Evidence> { seq(|ps|, i requires 0 <= i < |ps| => ps[i].evidence) }

  /** The summary follows the meetings, if there are any and they took time. */
  function SummaryOf(ctx: Context, gs: seq<Group>, ps: seq<Placed>): seq<Bullet> {
    if InSection(ps, Index(Meetings)) != [] && MeetingMinutes(gs) > 0
      then [SummaryBullet(ctx.template, MeetingMinutes(gs))] else []
  }

  function BucketOf(ps: seq<Placed>, summary: seq<Bullet>, k: nat): seq<Bullet> {
    BulletsOf(InSection(ps, k)) + if k == Index(Meetings) then summary else []
  }

  function Buckets(ps: seq<Placed>, summary: seq<Bullet>): seq<seq<Bullet>> {
    seq(COUNT, k requires 0 <= k < COUNT => BucketOf(ps, summary, k))
  }

  /** The sections of the first `n` buckets, without the empty ones. */
  function SectionsOf(buckets: seq<seq<Bullet>>, n: nat): seq<RenderedSection>
    requires n <= |buckets| <= COUNT
  {
    if n == 0 then []
    else SectionsOf(buckets, n - 1) + if buckets[n - 1] == [] then [] else [RenderedSection(ALL[n - 1], buckets[n - 1])]
  }

  // ---- the loops ----

  method RenderGroup(ctx: Context, g: Group) returns (r: Option<seq<Placed>>)
    ensures r == GroupPieces(ctx, g)
  {
    if !PerEvent(g) {
      var piece := Piece(ctx, g, 0, EventIds(g.events));
      return if piece.None? then None else Some([piece.value]);
    }
    var out: seq<Placed> := [];
    for i := 0 to |g.events|
      invariant EventPieces(ctx, g, i) == Some(out)
    {
      var piece := Piece(ctx, g, i, [g.events[i].id]);
      if piece.None? {
        FailureStays(ctx, g, i + 1);
        return None;
      }
      out := out + [piece.value];
    }
    r := Some(out);
  }

  lemma {:induction false} FailureStays(ctx: Context, g: Group, n: nat)
    requires PerEvent(g) && n <= |g.events| && EventPieces(ctx, g, n).None?
    ensures EventPieces(ctx, g, |g.events|).None?
    decreases |g.events| - n
  {
    if n < |g.events| { FailureStays(ctx, g, n + 1); }
  }

  lemma {:induction false} GroupFailureStays(ctx: Context, gs: seq<Group>, n: nat)
    requires n <= |gs| && Pieces(ctx, gs[..n]).None?
    ensures Pieces(ctx, gs).None?
    decreases |gs| - n
  {
    if n < |gs| {
      assert gs[..n + 1][..n] == gs[..n];
      GroupFailureStays(ctx, gs, n + 1);
    } else {
      assert gs[..n] == gs;
    }
  }

  /** Push one group's bullets into their bucket and their evidence behind the rest. */
  method PushPieces(buckets: array<seq<Bullet>>, k: nat, pieces: seq<Placed>, evidence: seq<Evidence>)
    returns (grown: seq<Evidence>)
    requires k < buckets.Length
    modifies buckets
    ensures grown == evidence + EvidenceOf(pieces)
    ensures buckets[k] == old(buckets[k]) + BulletsOf(pieces)
    ensures forall j :: 0 <= j < buckets.Length && j != k ==> buckets[j] == old(buckets[j])
  {
    grown := evidence;
    for i := 0 to |pieces|
      invariant grown == evidence + EvidenceOf(pieces[..i])
      invariant buckets[k] == old(buckets[k]) + BulletsOf(pieces[..i])
      invariant forall j :: 0 <= j < buckets.Length && j != k ==> buckets[j] == old(buckets[j])
    {
      grown := grown + [pieces[i].evidence];
      buckets[k] := buckets[k] + [pieces[i].bullet];
    }
    assert pieces[..|pieces|] == pieces;
  }

  lemma {:induction false} PiecesShareSection(ctx: Context, g: Group, n: nat)
    requires PerEvent(g) && n <= |g.events| && EventPieces(ctx, g, n).Some?
    ensures |EventPieces(ctx, g, n).value| == n
    ensures forall p :: p in EventPieces(ctx, g, n).value ==> p.section == FromGroup(g)
  {
    if n > 0 { PiecesShareSection(ctx, g, n - 1); }
  }

  lemma GroupInOneSection(ctx: Context, g: Group)
    requires GroupPieces(ctx, g).Some?
    ensures forall p :: p in GroupPieces(ctx, g).value ==> p.section == FromGroup(g)
  {
    if PerEvent(g) { PiecesShareSection(ctx, g, |g.events|); }
  }

  lemma {:induction false} InSectionConcat(a: seq<Placed>, b: seq<Placed>, k: nat)
    ensures InSection(a + b, k) == InSection(a, k) + InSection(b, k)
  {
    if a == [] {
      assert a + b == b;
    } else {
      assert (a + b)[1..] == a[1..] + b;
      InSectionConcat(a[1..], b, k);
    }
  }

  lemma {:induction false} OneSection(ps: seq<Placed>, s: Section, k: nat)
    requires forall p :: p in ps ==> p.section == s
    ensures InSection(ps, k) == if k == Index(s) then ps else []
  {
    if ps != [] {
      assert ps[0] in ps;
      OneSection(ps[1..], s, k);
    }
  }

  lemma BucketsGrow(before: seq<Placed>, pieces: seq<Placed>, s: Section, k: nat)
    requires forall p :: p in pieces ==> p.section == s
    ensures BulletsOf(InSection(before + pieces, k)) ==
      BulletsOf(InSection(before, k)) + if k == Index(s) then BulletsOf(pieces) else []
  {
    InSectionConcat(before, pieces, k);
    OneSection(pieces, s, k);
  }

  /** The buckets hold the bullets of the pieces, each section its own. */
  ghost predicate Filled(buckets: seq<seq<Bullet>>, ps: seq<Placed>) {
    |buckets| == COUNT && forall k :: 0 <= k < COUNT ==> buckets[k] == BulletsOf(InSection(ps, k))
  }

  lemma FilledMore(before: seq<seq<Bullet>>, after: seq<seq<Bullet>>, ps: seq<Placed>, pieces: seq<Placed>, s: Section)
    requires Filled(before, ps) && |after| == COUNT
    requires forall p :: p in pieces ==> p.section == s
    requires forall k :: 0 <= k < COUNT ==>
      after[k] == if k == Index(s) then before[k] + BulletsOf(pieces) else before[k]
    ensures Filled(after, ps + pieces)
  {
    forall k | 0 <= k < COUNT ensures after[k] == BulletsOf(InSection(ps + pieces, k)) {
      BucketsGrow(ps, pieces, s, k);
    }
  }

  method PlaceGroup(ctx: Context, group: Group, buckets: array<seq<Bullet>>, found: seq<Evidence>,
                    ghost done: seq<Placed>)
    returns (ok: bool, grown: seq<Evidence>)
    requires buckets.Length == COUNT && Filled(buckets[..], done) && found == EvidenceOf(done)
    modifies buckets
    ensures ok <==> GroupPieces(ctx, group).Some?
    ensures ok ==> Filled(buckets[..], done + GroupPieces(ctx, group).value)
    ensures ok ==> grown == EvidenceOf(done + GroupPieces(ctx, group).value)
  {
    var rendered := RenderGroup(ctx, group);
    if rendered.None? { return false, found; }
    GroupInOneSection(ctx, group);
    ghost var before := buckets[..];
    grown := PushPieces(buckets, Index(FromGroup(group)), rendered.value, found);
    FilledMore(before, buckets[..], done, rendered.value, FromGroup(group));
    ok := true;
  }

  lemma PiecesSnoc(ctx: Context, gs: seq<Group>, i: nat)
    requires i < |gs|
    ensures Pieces(ctx, gs[..i + 1]) ==
      if Pieces(ctx, gs[..i]).None? || GroupPieces(ctx, gs[i]).None? then None
      else Some(Pieces(ctx, gs[..i]).value + GroupPieces(ctx, gs[i]).value)
  {
    assert gs[..i + 1][..i] == gs[..i];
  }

  method FillBuckets(ctx: Context, groups: seq<Group>, buckets: array<seq<Bullet>>)
    returns (evidence: Option<seq<Evidence>>)
    requires buckets.Length == COUNT && Filled(buckets[..], [])
    modifies buckets
    ensures evidence.Some? <==> Pieces(ctx, groups).Some?
    ensures evidence.Some? ==> evidence.value == EvidenceOf(Pieces(ctx, groups).value)
    ensures evidence.Some? ==> Filled(buckets[..], Pieces(ctx, groups).value)
  {
    var found: seq<Evidence> := [];
    for i := 0 to |groups|
      invariant Pieces(ctx, groups[..i]).Some? && found == EvidenceOf(Pieces(ctx, groups[..i]).value)
      invariant Filled(buckets[..], Pieces(ctx, groups[..i]).value)
    {
      PiecesSnoc(ctx, groups, i);
      var ok;
      ok, found := PlaceGroup(ctx, groups[i], buckets, found, Pieces(ctx, groups[..i]).value);
      if !ok {
        GroupFailureStays(ctx, groups, i + 1);
        return None;
      }
    }
    assert groups[..|groups|] == groups;
    evidence := Some(found);
  }

  method SumMeetingMinutes(groups: seq<Group>) returns (minutes: nat)
    ensures minutes == MeetingMinutes(groups)
  {
    minutes := 0;
    for i := 0 to |groups|
      invariant minutes == MeetingMinutes(groups[..i])
    {
      assert groups[..i + 1][..i] == groups[..i];
      minutes := minutes + MinutesOf(groups[i]);
    }
    assert groups[..|groups|] == groups;
  }

  /** The summary goes behind the meetings, if there are any. */
  method AppendSummary(ctx: Context, groups: seq<Group>, buckets: array<seq<Bullet>>, ghost ps: seq<Placed>)
    requires buckets.Length == COUNT && Filled(buckets[..], ps)
    modifies buckets
    ensures buckets[..] == Buckets(ps, SummaryOf(ctx, groups, ps))
  {
    assert forall k :: 0 <= k < COUNT ==> buckets[k] == buckets[..][k];
    if buckets[Index(Meetings)] != [] {
      var minutes := SumMeetingMinutes(groups);
      if minutes > 0 {
        buckets[Index(Meetings)] := buckets[Index(Meetings)] + [SummaryBullet(ctx.template, minutes)];
      }
    }
    assert forall k :: 0 <= k < COUNT ==> buckets[k] == BucketOf(ps, SummaryOf(ctx, groups, ps), k);
  }

  /** Walk the sections in order and leave out the empty ones. */
  method CollectSections(buckets: array<seq<Bullet>>) returns (sections: seq<RenderedSection>)
    requires buckets.Length == COUNT
    ensures sections == SectionsOf(buckets[..], COUNT)
  {
    sections := [];
    for k := 0 to COUNT
      invariant sections == SectionsOf(buckets[..], k)
    {
      if buckets[k] != [] {
        sections := sections + [RenderedSection(ALL[k], buckets[k])];
      }
    }
  }

  method BuildSections(ctx: Context, groups: seq<Group>) returns (r: Option<(seq<RenderedSection>, seq<Evidence>)>)
    ensures r.Some? <==> Pieces(ctx, groups).Some?
    ensures r.Some? ==>
      var ps := Pieces(ctx, groups).value;
      r.value == (SectionsOf(Buckets(ps, SummaryOf(ctx, groups, ps)), COUNT), EvidenceOf(ps))
  {
    var buckets := new seq<Bullet>[COUNT](i => []);
    var evidence := FillBuckets(ctx, groups, buckets);
    if evidence.None? { return None; }
    ghost var ps := Pieces(ctx, groups).value;
    AppendSummary(ctx, groups, buckets, ps);
    var sections := CollectSections(buckets);
    r := Some((sections, evidence.value));
  }
}
