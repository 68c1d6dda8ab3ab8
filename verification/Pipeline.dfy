/** The five passes in order, and why running them twice is running them once. */
module Pipeline {
  import opened Basics
  import opened Activity
  import opened Coalesce
  import opened Dedup
  import opened DedupLaws
  import opened Enrich
  import opened Annotate

  ghost function Each(f: Event -> Event, es: seq<Event>): (r: seq<Event>)
    ensures |r| == |es| && forall i :: 0 <= i < |es| ==> r[i] == f(es[i])
  {
    seq(|es|, i requires 0 <= i < |es| => f(es[i]))
  }

  ghost function Enriched(es: seq<Event>): seq<Event> {
    Each(e => WithUrls(e), Each(e => WithTickets(e), Deduped(es)))
  }

  ghost function Triggered(es: seq<Event>): seq<Event> {
    Each(e => WithTrigger(es, e), es)
  }

  ghost function Rolled(es: seq<Event>, mrs: seq<MergeRequestArtifact>): seq<Event> {
    Each(e => RolledInto(mrs, e), es)
  }

  ghost function Processed(es: seq<Event>, mrs: seq<MergeRequestArtifact>): seq<Event> {
    Rolled(Triggered(Enriched(es)), mrs)
  }

  method RunPipeline(events: seq<Event>, mrs: seq<MergeRequestArtifact>) returns (out: seq<Event>)
    ensures out == Processed(events, mrs)
  {
    var deduped := DedupCommitAuthored(events);
    var buffer := new Event[|deduped|](i requires 0 <= i < |deduped| => deduped[i]);
    assert buffer[..] == deduped;
    ExtractTicketKeys(buffer);
    assert buffer[..] == Each(e => WithTickets(e), deduped);
    ExtractGithubPrUrls(buffer);
    assert buffer[..] == Enriched(events);
    AnnotateTransitionWithMr(buffer);
    assert buffer[..] == Triggered(Enriched(events));
    AnnotateRolledIntoMr(buffer, mrs);
    assert buffer[..] == Processed(events, mrs);
    out := buffer[..];
  }

  // ---- frames: what each pass leaves for the others ----

  /** The later passes touch the parent of an event and nothing else. */
  predicate SameButParent(a: Event, b: Event) {
    b == a.(parent := b.parent)
  }

  /** The enriching passes touch the entities of an event and nothing else. */
  predicate SameButEntities(a: Event, b: Event) {
    b == a.(entities := b.entities)
  }

  /** Every reference the text of an event asks for is attached. */
  ghost predicate FullyReferenced(e: Event) {
    && (forall r :: r in TicketRefs(e) ==> HasEntity(e.entities, r.kind, r.externalId))
    && (forall r :: r in UrlRefs(e) ==> HasEntity(e.entities, r.kind, r.externalId))
  }

  lemma EnrichingReferences(e: Event)
    ensures SameButEntities(e, WithUrls(WithTickets(e))) && FullyReferenced(WithUrls(WithTickets(e)))
  {
    var t := WithTickets(e);
    var u := WithUrls(t);
    AddMissingKeepsAndAdds(e.entities, TicketRefs(e));
    AddMissingKeepsAndAdds(t.entities, UrlRefs(t));
    assert TicketRefs(u) == TicketRefs(e) && UrlRefs(u) == UrlRefs(t);
    forall r | r in TicketRefs(e) ensures HasEntity(u.entities, r.kind, r.externalId) {
      PrefixHasEntity(t.entities, u.entities, r.kind, r.externalId);
    }
  }

  lemma FullyReferencedIsFixed(e: Event)
    requires FullyReferenced(e)
    ensures WithUrls(WithTickets(e)) == e
  {
    NothingMissing(e.entities, TicketRefs(e));
    NothingMissing(e.entities, UrlRefs(e));
  }

  /** Which event triggers a transition does not depend on any parent. */
  lemma {:induction false} TriggerIgnoresParents(es: seq<Event>, fs: seq<Event>, key: string, at: int)
    requires |es| == |fs| && forall i :: 0 <= i < |es| ==> SameButParent(es[i], fs[i])
    ensures Trigger(es, key, at).None? <==> Trigger(fs, key, at).None?
    ensures Trigger(es, key, at).Some? ==> SameButParent(Trigger(es, key, at).value, Trigger(fs, key, at).value)
  {
    if es != [] { TriggerIgnoresParents(es[..|es| - 1], fs[..|fs| - 1], key, at); }
  }

  /** Both parent passes, applied to their own result, change nothing. */
  lemma ParentsAreFixed(es: seq<Event>, mrs: seq<MergeRequestArtifact>)
    ensures var out := Rolled(Triggered(es), mrs);
      && |out| == |es| && (forall i :: 0 <= i < |es| ==> SameButParent(es[i], out[i]))
      && Rolled(Triggered(out), mrs) == out
  {
    var out := Rolled(Triggered(es), mrs);
    assert forall i :: 0 <= i < |es| ==> SameButParent(es[i], out[i]);
    forall i | 0 <= i < |out| ensures WithTrigger(out, out[i]) == out[i] && RolledInto(mrs, out[i]) == out[i] {
      var issue := FirstEntity(es[i].entities, JiraIssue);
      if issue.Some? { TriggerIgnoresParents(es, out, issue.value.externalId, es[i].occurredAt); }
    }
  }

  lemma EnrichedIsReferenced(es: seq<Event>)
    ensures var out := Enriched(es);
      && DistinctKeys(ShaOf, out) && forall i :: 0 <= i < |out| ==> FullyReferenced(out[i])
  {
    var deduped := Deduped(es);
    ShasAreKept(es, []);
    forall i | 0 <= i < |deduped|
      ensures SameButEntities(deduped[i], Enriched(es)[i]) && FullyReferenced(Enriched(es)[i])
    {
      EnrichingReferences(deduped[i]);
    }
  }

  /** Nothing is left to deduplicate or to attach. */
  lemma ReferencedIsFixed(es: seq<Event>)
    requires DistinctKeys(ShaOf, es) && forall i :: 0 <= i < |es| ==> FullyReferenced(es[i])
    ensures Enriched(es) == es
  {
    DistinctIsFixed(ShaOf, Merged, es);
    forall i | 0 <= i < |es| ensures WithUrls(WithTickets(es[i])) == es[i] { FullyReferencedIsFixed(es[i]); }
  }

  lemma ReferencesIgnoreParents(a: Event, b: Event)
    requires SameButParent(a, b) && FullyReferenced(a)
    ensures FullyReferenced(b)
  {
    assert TicketRefs(b) == TicketRefs(a) && UrlRefs(b) == UrlRefs(a);
  }

  /** For every list of events and of merge requests, the pipeline run on its own
      output gives that output back. */
  lemma PipelineIsIdempotent(es: seq<Event>, mrs: seq<MergeRequestArtifact>)
    ensures Processed(Processed(es, mrs), mrs) == Processed(es, mrs)
  {
    var mid := Enriched(es);
    var out := Processed(es, mrs);
    EnrichedIsReferenced(es);
    ParentsAreFixed(mid, mrs);
    forall i | 0 <= i < |out| ensures FullyReferenced(out[i]) { ReferencesIgnoreParents(mid[i], out[i]); }
    ReferencedIsFixed(out);
  }

  /** On the output no pass has anything left to do: no SHA is there twice, every text's
      references are attached, and every parent is set. */
  lemma NoPassHasWorkLeft(es: seq<Event>, mrs: seq<MergeRequestArtifact>)
    ensures var out := Processed(es, mrs);
      && (forall i, j :: 0 <= i < j < |out| && out[i].kind == CommitAuthored && out[j].kind == CommitAuthored ==>
            out[i].externalId != out[j].externalId)
      && (forall i :: 0 <= i < |out| ==> WithTickets(out[i]) == out[i] && WithUrls(out[i]) == out[i])
      && forall i :: 0 <= i < |out| ==> WithTrigger(out, out[i]) == out[i] && RolledInto(mrs, out[i]) == out[i]
  {
    var (mid, out) := (Enriched(es), Processed(es, mrs));
    EnrichedIsReferenced(es);
    ParentsAreFixed(mid, mrs);
    forall i | 0 <= i < |out| ensures WithTickets(out[i]) == out[i] && WithUrls(out[i]) == out[i] {
      ReferencesIgnoreParents(mid[i], out[i]);
      NothingMissing(out[i].entities, TicketRefs(out[i]));
      NothingMissing(out[i].entities, UrlRefs(out[i]));
    }
    ParentsStay(out, mrs);
    forall i, j | 0 <= i < j < |out| && out[i].kind == CommitAuthored && out[j].kind == CommitAuthored
      ensures out[i].externalId != out[j].externalId
    {
      assert SameButParent(mid[i], out[i]) && SameButParent(mid[j], out[j]);
      assert ShaOf(mid[i]) == Some(out[i].externalId) && ShaOf(mid[j]) == Some(out[j].externalId);
    }
  }

  lemma ParentsStay(out: seq<Event>, mrs: seq<MergeRequestArtifact>)
    requires Rolled(Triggered(out), mrs) == out
    ensures forall i :: 0 <= i < |out| ==> WithTrigger(out, out[i]) == out[i] && RolledInto(mrs, out[i]) == out[i]
  {
    forall i | 0 <= i < |out| ensures WithTrigger(out, out[i]) == out[i] && RolledInto(mrs, out[i]) == out[i] {
      assert Rolled(Triggered(out), mrs)[i] == RolledInto(mrs, WithTrigger(out, out[i]));
    }
  }

  /** What the passes change of a deduplicated event: its entities and its parent. */
  lemma PassesTouchReferencesOnly(es: seq<Event>, mrs: seq<MergeRequestArtifact>)
    ensures var (kept, out) := (Deduped(es), Processed(es, mrs));
      && |out| == |kept|
      && forall i :: 0 <= i < |kept| ==> out[i] == kept[i].(entities := out[i].entities, parent := out[i].parent)
  {
    var (kept, mid) := (Deduped(es), Enriched(es));
    ParentsAreFixed(mid, mrs);
    forall i | 0 <= i < |kept| ensures SameButEntities(kept[i], mid[i]) { EnrichingReferences(kept[i]); }
  }
}
