/** From collected events to bullets: ids stay distinct all the way, so every
    bullet has evidence of its own. */
module EndToEnd {
  import opened Basics
  import opened Activity
  import opened Coalesce
  import opened Dedup
  import opened Annotate
  import opened Pipeline
  import opened RollupKeys
  import opened Rollup
  import opened RollupConserve
  import opened RollupMerge
  import opened RollupTheorems
  import opened RollupInputs
  import opened Sections
  import opened RenderLaws

  // ---- the pipeline keeps ids distinct ----

  ghost predicate HasId(es: seq<Event>, id: nat) { exists i :: 0 <= i < |es| && es[i].id == id }

  lemma {:induction false} FoldKeepsAnId(cs: seq<Event>)
    requires cs != []
    ensures HasId(cs, Fold(Merged, cs).id)
  {
    if |cs| == 1 {
      assert cs[0].id == Fold(Merged, cs).id;
    } else {
      var front := cs[..|cs| - 1];
      FoldKeepsAnId(front);
      var i :| 0 <= i < |front| && front[i].id == Fold(Merged, front).id;
      assert cs[i] == front[i];
      assert Fold(Merged, cs).id == cs[i].id || Fold(Merged, cs).id == cs[|cs| - 1].id;
    }
  }

  lemma {:induction false} WithoutKeepsDistinct(es: seq<Event>, sha: string)
    requires DistinctIds(es)
    ensures DistinctIds(Without(ShaOf, es, sha))
    ensures forall e :: e in Without(ShaOf, es, sha) <==> e in es && ShaOf(e) != Some(sha)
  {
    if es != [] {
      assert DistinctIds(es[1..]);
      WithoutKeepsDistinct(es[1..], sha);
      var rest := Without(ShaOf, es[1..], sha);
      forall j | 0 <= j < |rest| ensures rest[j].id != es[0].id {
        assert rest[j] in rest && rest[j] in es[1..];
        var k :| 0 <= k < |es[1..]| && es[1..][k] == rest[j];
        assert es[k + 1] == rest[j];
      }
    }
  }

  lemma OtherEventOtherId(es: seq<Event>, a: Event, b: Event)
    requires DistinctIds(es) && a in es && b in es && a != b
    ensures a.id != b.id
  {
    var i :| 0 <= i < |es| && es[i] == a;
    var j :| 0 <= j < |es| && es[j] == b;
  }

  /** The event whose id the merged one takes is not among those left. */
  lemma HeadIsGone(es: seq<Event>) returns (first: Event)
    requires es != [] && DistinctIds(es)
    ensures first in es && first.id == Head(ShaOf, Merged, es).id
    ensures DistinctIds(Rest(ShaOf, es)) && forall e :: e in Rest(ShaOf, es) ==> e in es && e != first
  {
    assert DistinctIds(es[1..]);
    if ShaOf(es[0]).Some? {
      var sha := ShaOf(es[0]).value;
      var same := With(ShaOf, es, sha);
      WithoutKeepsDistinct(es[1..], sha);
      WithMembers(ShaOf, es, sha);
      FoldKeepsAnId(same);
      var k :| 0 <= k < |same| && same[k].id == Head(ShaOf, Merged, es).id;
      first := same[k];
      assert first in same;
    } else {
      first := es[0];
    }
  }

  lemma RestKeepsDistinct(es: seq<Event>)
    requires es != [] && DistinctIds(es)
    ensures DistinctIds(Rest(ShaOf, es)) && !HasId(Rest(ShaOf, es), Head(ShaOf, Merged, es).id)
    ensures HasId(es, Head(ShaOf, Merged, es).id)
    ensures forall id :: HasId(Rest(ShaOf, es), id) ==> HasId(es, id)
  {
    var rest := Rest(ShaOf, es);
    var first := HeadIsGone(es);
    var i :| 0 <= i < |es| && es[i] == first;
    forall j | 0 <= j < |rest| ensures rest[j].id != first.id && HasId(es, rest[j].id) {
      assert rest[j] in rest;
      OtherEventOtherId(es, rest[j], first);
      var k :| 0 <= k < |es| && es[k] == rest[j];
    }
  }

  lemma {:induction false} DedupKeepsIdsDistinct(es: seq<Event>)
    requires DistinctIds(es)
    ensures DistinctIds(Deduped(es)) && forall id :: HasId(Deduped(es), id) ==> HasId(es, id)
    decreases |es|
  {
    if es != [] {
      var (rest, head) := (Rest(ShaOf, es), Head(ShaOf, Merged, es));
      RestKeepsDistinct(es);
      DedupKeepsIdsDistinct(rest);
      forall j | 0 <= j < |Deduped(rest)| ensures Deduped(rest)[j].id != head.id {
        assert HasId(Deduped(rest), Deduped(rest)[j].id);
      }
      forall id | HasId(Deduped(es), id) ensures HasId(es, id) {
        var i :| 0 <= i < |Deduped(es)| && Deduped(es)[i].id == id;
        if i > 0 { assert Deduped(rest)[i - 1].id == id; }
      }
    }
  }

  lemma ProcessedKeepsIds(es: seq<Event>, mrs: seq<MergeRequestArtifact>)
    ensures |Processed(es, mrs)| == |Deduped(es)|
    ensures forall i :: 0 <= i < |Deduped(es)| ==> Processed(es, mrs)[i].id == Deduped(es)[i].id
  {
    ParentsAreFixed(Enriched(es), mrs);
    forall i | 0 <= i < |Deduped(es)| ensures Enriched(es)[i].id == Deduped(es)[i].id {
      EnrichingReferences(Deduped(es)[i]);
    }
  }

  /** The pipeline never makes two events of one id. */
  lemma PipelineKeepsIdsDistinct(es: seq<Event>, mrs: seq<MergeRequestArtifact>)
    requires DistinctIds(es)
    ensures DistinctIds(Processed(es, mrs))
  {
    DedupKeepsIdsDistinct(es);
    ProcessedKeepsIds(es, mrs);
  }

  // ---- the rollup keeps them distinct ----

  ghost predicate DistinctBy<K>(key: Group -> K, gs: seq<Group>) {
    forall i, j :: 0 <= i < j < |gs| ==> key(gs[i]) != key(gs[j])
  }

  ghost predicate Apart<K>(key: Group -> K, g: Group, gs: seq<Group>) { forall x :: x in gs ==> key(x) != key(g) }

  lemma {:induction false} InsertKeepsDistinct<K>(key: Group -> K, g: Group, gs: seq<Group>)
    requires DistinctBy(key, gs) && Apart(key, g, gs)
    ensures DistinctBy(key, InsertBy(GroupLe, g, gs))
  {
    if gs != [] && !GroupLe(g, gs[0]) {
      var rest := InsertBy(GroupLe, g, gs[1..]);
      InsertKeepsDistinct(key, g, gs[1..]);
      InsertKeepsElements(GroupLe, g, gs[1..]);
      FirstIsApart(key, gs);
      forall x | x in rest ensures key(x) != key(gs[0]) {
        assert x in multiset(rest);
        assert x == g || x in gs[1..];
      }
      ConsDistinct(key, gs[0], rest);
    } else {
      ConsDistinct(key, g, gs);
    }
  }

  lemma FirstIsApart<K>(key: Group -> K, gs: seq<Group>)
    requires gs != [] && DistinctBy(key, gs)
    ensures Apart(key, gs[0], gs[1..]) && DistinctBy(key, gs[1..])
  {
    forall x | x in gs[1..] ensures key(x) != key(gs[0]) {
      var k :| 0 <= k < |gs[1..]| && gs[1..][k] == x;
      assert gs[k + 1] == x;
    }
  }

  lemma ConsDistinct<K>(key: Group -> K, g: Group, gs: seq<Group>)
    requires DistinctBy(key, gs) && Apart(key, g, gs)
    ensures DistinctBy(key, [g] + gs)
  {
    assert forall j :: 0 <= j < |gs| ==> gs[j] in gs;
  }

  lemma {:induction false} SortKeepsDistinct<K>(key: Group -> K, gs: seq<Group>)
    requires DistinctBy(key, gs)
    ensures DistinctBy(key, SortBy(GroupLe, gs))
  {
    if gs != [] {
      FirstIsApart(key, gs);
      SortKeepsDistinct(key, gs[1..]);
      SortMembers(GroupLe, gs[1..]);
      InsertKeepsDistinct(key, gs[0], SortBy(GroupLe, gs[1..]));
    }
  }

  lemma {:induction false} GroupAtMost(gs: seq<Group>, i: nat)
    requires i < |gs|
    ensures multiset(gs[i].events) <= EventsOf(gs)
  {
    if i > 0 { GroupAtMost(gs[1..], i - 1); }
  }

  lemma NoIdTwice(es: seq<Event>, g: Group)
    requires DistinctIds(es) && multiset(g.events) <= multiset(es)
    ensures DistinctIds(g.events)
  {
    forall i, j | 0 <= i < j < |g.events| ensures g.events[i].id != g.events[j].id {
      if g.events[i].id == g.events[j].id {
        assert g.events[i] in multiset(g.events) && g.events[j] in multiset(g.events);
        assert g.events[i] in multiset(es) && g.events[j] in multiset(es);
        if g.events[i] != g.events[j] { OtherEventOtherId(es, g.events[i], g.events[j]); }
        OnceEach(es, g.events[i]);
        CountTwice(g.events, i, j);
      }
    }
  }

  lemma MembersAtMost(es: seq<Event>, gs: seq<Group>, i: nat, e: Event)
    requires EventsOf(gs) <= multiset(es) && i < |gs| && e in gs[i].events
    ensures e in es && EventsOf(gs)[e] <= multiset(es)[e]
  {
    GroupAtMost(gs, i);
    assert e in multiset(gs[i].events) && e in multiset(es);
  }

  lemma NoEventInTwo(es: seq<Event>, gs: seq<Group>, i: nat, j: nat)
    requires DistinctIds(es) && EventsOf(gs) <= multiset(es) && i < j < |gs|
    ensures SharesNoEvent(gs[i], gs[j])
  {
    forall a, b | 0 <= a < |gs[i].events| && 0 <= b < |gs[j].events| ensures gs[i].events[a].id != gs[j].events[b].id {
      var (e, f) := (gs[i].events[a], gs[j].events[b]);
      MembersAtMost(es, gs, i, e);
      MembersAtMost(es, gs, j, f);
      OnceEach(es, e);
      if e == f { InOneGroup(gs, i, j, e); } else { OtherEventOtherId(es, e, f); }
    }
  }

  lemma KeysTellApart(g: Group, h: Group)
    requires SetKeyOf(g) != SetKeyOf(h) && SharesNoEvent(g, h)
    ensures ToldApart(g, h)
  {
  }

  /** The groups of a rollup have distinct merge keys and share no event, whatever
      the artifacts; so no two of them give bullets of one id. */
  lemma RollUpGroupsAreDistinct(es: seq<Event>, artifacts: seq<Artifact>, reportDate: Day)
    requires DistinctIds(es)
    ensures DistinctBy(SetKeyOf, RolledUp(es, artifacts, reportDate))
    ensures DistinctGroups(RolledUp(es, artifacts, reportDate))
  {
    var raw := RawGroups(es, artifacts, reportDate);
    var out := RolledUp(es, artifacts, reportDate);
    MergeKeepsKey();
    CoalescedHasDistinctKeys(SetKeyOf, MergedGroup, raw);
    SortKeepsDistinct(SetKeyOf, MergedSets(raw));
    RawPartition(es, artifacts, reportDate);
    forall i, j | 0 <= i < j < |out| ensures ToldApart(out[i], out[j]) {
      NoEventInTwo(es, out, i, j);
      KeysTellApart(out[i], out[j]);
    }
    forall g | g in out ensures DistinctIds(g.events) {
      var i :| 0 <= i < |out| && out[i] == g;
      GroupAtMost(out, i);
      NoIdTwice(es, g);
    }
  }

  function IdOf(g: Group): ArtifactId { g.artifact.id }

  /** Where ids tell merge keys apart, no two groups have the same artifact id. */
  lemma RollUpIdsDiffer(es: seq<Event>, artifacts: seq<Artifact>, reportDate: Day)
    requires DistinctIds(es) && IdsTellKeys(es, artifacts)
    ensures DistinctBy(IdOf, RolledUp(es, artifacts, reportDate))
  {
    var raw := RawGroups(es, artifacts, reportDate);
    IdsTellKeysExactly(es, artifacts, reportDate);
    forall i, j | 0 <= i < j < |MergedSets(raw)| ensures IdOf(MergedSets(raw)[i]) != IdOf(MergedSets(raw)[j]) {
      MergedIdsDiffer(raw, i, j);
    }
    SortKeepsDistinct(IdOf, MergedSets(raw));
  }

  /** With local-git artifacts, or with none, that is always so. */
  lemma LocalGitIdsDiffer(es: seq<Event>, artifacts: seq<Artifact>, reportDate: Day)
    requires DistinctIds(es) && forall i :: 0 <= i < |artifacts| ==> IsLocalGit(artifacts[i])
    ensures DistinctBy(IdOf, RolledUp(es, artifacts, reportDate))
  {
    LocalGitIdsTellKeys(es, artifacts);
    RollUpIdsDiffer(es, artifacts, reportDate);
  }

  // ---- the whole way ----

  /** The events that pass the self filter, whatever it asks. */
  function Own(self: Event -> bool, es: seq<Event>): seq<Event> {
    if es == [] then [] else (if self(es[0]) then [es[0]] else []) + Own(self, es[1..])
  }

  lemma {:induction false} OwnKeepsIdsDistinct(self: Event -> bool, es: seq<Event>)
    requires DistinctIds(es)
    ensures DistinctIds(Own(self, es)) && forall e :: e in Own(self, es) <==> e in es && self(e)
  {
    if es != [] {
      assert DistinctIds(es[1..]);
      OwnKeepsIdsDistinct(self, es[1..]);
      var rest := Own(self, es[1..]);
      forall j | 0 <= j < |rest| ensures rest[j].id != es[0].id {
        assert rest[j] in rest && rest[j] in es[1..];
        var k :| 0 <= k < |es[1..]| && es[1..][k] == rest[j];
        assert es[k + 1] == rest[j];
      }
    }
  }

  /** The groups a day is rendered from. */
  ghost function DayGroups(self: Event -> bool, es: seq<Event>, mrs: seq<MergeRequestArtifact>,
                           artifacts: seq<Artifact>, reportDate: Day): seq<Group> {
    RolledUp(Own(self, Processed(es, mrs)), artifacts, reportDate)
  }

  /** Events with distinct ids, run through the pipeline, filtered, rolled up with
      any artifacts and rendered, give bullets with distinct ids, each joined to its
      evidence by that id. */
  lemma BulletsOfADayAreUnique(ctx: Context, self: Event -> bool, es: seq<Event>, mrs: seq<MergeRequestArtifact>,
                               artifacts: seq<Artifact>, reportDate: Day)
    requires DistinctIds(es)
    ensures var pieces := Pieces(ctx, DayGroups(self, es, mrs, artifacts, reportDate));
      pieces.Some? ==> DistinctBullets(pieces.value) && forall p :: p in pieces.value ==> Joined(p)
  {
    var own := Own(self, Processed(es, mrs));
    var groups := DayGroups(self, es, mrs, artifacts, reportDate);
    PipelineKeepsIdsDistinct(es, mrs);
    OwnKeepsIdsDistinct(self, Processed(es, mrs));
    RollUpGroupsAreDistinct(own, artifacts, reportDate);
    if Pieces(ctx, groups).Some? {
      BulletIdsAreUnique(ctx, groups);
      PiecesJoined(ctx, groups);
    }
  }

  /** And every event that passed the filter is in the groups, or stood in for by one
      of its external id, exactly when the inputs of the rollup overwrite nothing. */
  lemma EventsOfADayAreKeptExactly(self: Event -> bool, es: seq<Event>, mrs: seq<MergeRequestArtifact>,
                                   artifacts: seq<Artifact>, reportDate: Day)
    requires DistinctIds(es)
    ensures var own := Own(self, Processed(es, mrs));
      (forall e :: e in own ==> AccountedFor(DayGroups(self, es, mrs, artifacts, reportDate), artifacts, e))
        <==> NothingOverwritten(own, artifacts)
  {
    PipelineKeepsIdsDistinct(es, mrs);
    OwnKeepsIdsDistinct(self, Processed(es, mrs));
    RollUpPartition(Own(self, Processed(es, mrs)), artifacts, reportDate);
  }
}
