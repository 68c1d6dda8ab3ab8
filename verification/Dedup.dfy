/** Cross-source deduplication of commits that share a SHA. */
module Dedup {
  import opened Basics
  import opened Activity
  import opened Coalesce

  // ---- merging two commits ----

  function BodyRank(e: Event): nat {
    if e.body.Some? then |e.body.value| else 0
  }

  predicate PickAOnTie(a: Event, b: Event) {
    BodyRank(a) != BodyRank(b) || a.sourceId <= b.sourceId
  }

  function LouderPrivacy(a: Privacy, b: Privacy): Privacy {
    if a.RedactedPrivateRepo? || b.RedactedPrivateRepo? then RedactedPrivateRepo else Normal
  }

  function MergedActors(winner: Actor, loser: Actor): Actor {
    winner.(email := if winner.email.None? then loser.email else winner.email,
            externalId := if winner.externalId.None? then loser.externalId else winner.externalId)
  }

  /** `a`, then the elements of `b` not seen before, in order. */
  function Union<T(==)>(a: seq<T>, b: seq<T>): seq<T>
    decreases b
  {
    if b == [] then a
    else Union(if b[0] in a then a else a + [b[0]], b[1..])
  }

  function Merged(a: Event, b: Event): Event {
    var (winner, loser) := if BodyRank(a) >= BodyRank(b) && PickAOnTie(a, b) then (a, b) else (b, a);
    winner.(links := Union(winner.links, loser.links),
            entities := Union(winner.entities, loser.entities),
            privacy := LouderPrivacy(winner.privacy, loser.privacy),
            actor := MergedActors(winner.actor, loser.actor))
  }

  method UnionInto<T(==)>(a: seq<T>, b: seq<T>) returns (r: seq<T>)
    ensures r == Union(a, b)
  {
    r := a;
    for i := 0 to |b|
      invariant Union(a, b) == Union(r, b[i..])
    {
      assert b[i..][1..] == b[i + 1..];
      if b[i] !in r { r := r + [b[i]]; }
    }
  }

  method MergeTwo(a: Event, b: Event) returns (winner: Event)
    ensures winner == Merged(a, b)
  {
    var loser;
    if BodyRank(a) >= BodyRank(b) && PickAOnTie(a, b) { winner, loser := a, b; } else { winner, loser := b, a; }
    var links := UnionInto(winner.links, loser.links);
    var entities := UnionInto(winner.entities, loser.entities);
    winner := winner.(links := links);
    winner := winner.(entities := entities);
    winner := winner.(privacy := LouderPrivacy(winner.privacy, loser.privacy));
    winner := winner.(actor := MergedActors(winner.actor, loser.actor));
  }

  // ---- one fold per SHA, at its first position ----

  /** The SHA of a commit; other events are not deduplicated. */
  function ShaOf(e: Event): Option<string> {
    if e.kind == CommitAuthored then Some(e.externalId) else None
  }

  function Commits(es: seq<Event>, sha: string): seq<Event> { With(ShaOf, es, sha) }

  function Deduped(es: seq<Event>): seq<Event> { Coalesced(ShaOf, Merged, es) }

  lemma MergedKeepsSha()
    ensures KeepsKey(ShaOf, Merged)
  {
  }

  /** An event that opens a place of its own. */
  lemma NewPlace(seen: seq<Event>, e: Event, bySha: map<string, nat>)
    requires Indexed(ShaOf, seen, bySha) && (ShaOf(e).None? || e.externalId !in bySha)
    ensures Deduped(seen + [e]) == Deduped(seen) + [e]
    ensures Indexed(ShaOf, seen + [e], if ShaOf(e).None? then bySha else bySha[e.externalId := |Deduped(seen)|])
  {
    IndexGrows(ShaOf, Merged, seen, e, bySha);
    CoalescedSnocNew(ShaOf, Merged, seen, e);
  }

  /** A commit that merges into the place of its SHA. */
  lemma SeenPlace(seen: seq<Event>, e: Event, bySha: map<string, nat>)
    requires Indexed(ShaOf, seen, bySha) && ShaOf(e).Some? && e.externalId in bySha
    ensures bySha[e.externalId] < |Deduped(seen)|
    ensures Deduped(seen + [e]) == Deduped(seen)[bySha[e.externalId] := Merged(Deduped(seen)[bySha[e.externalId]], e)]
    ensures Indexed(ShaOf, seen + [e], bySha)
  {
    IndexGrows(ShaOf, Merged, seen, e, bySha);
    KeyHasOnePlace(ShaOf, Merged, seen, e.externalId);
    CoalescedSnocSeen(ShaOf, Merged, seen, e, e.externalId);
    FoldSnoc(Merged, Commits(seen, e.externalId), e);
  }

  function Flatten(slots: seq<Option<Event>>): seq<Event>
    requires forall i :: 0 <= i < |slots| ==> slots[i].Some?
  {
    seq(|slots|, i requires 0 <= i < |slots| => slots[i].value)
  }

  /** The slots and the index of SHAs after the events `seen`. */
  ghost predicate Slotted(merged: seq<Option<Event>>, bySha: map<string, nat>, seen: seq<Event>) {
    && (forall k :: 0 <= k < |merged| ==> merged[k].Some?)
    && Flatten(merged) == Deduped(seen)
    && Indexed(ShaOf, seen, bySha)
  }

  /** Place one event: in a new slot, or merged into the slot of its SHA. */
  method PlaceEvent(merged: seq<Option<Event>>, bySha: map<string, nat>, event: Event, ghost seen: seq<Event>)
    returns (slots: seq<Option<Event>>, index: map<string, nat>)
    requires Slotted(merged, bySha, seen)
    ensures Slotted(slots, index, seen + [event])
  {
    index := bySha;
    if event.kind == CommitAuthored && event.externalId in bySha {
      SeenPlace(seen, event, bySha);
      var k := bySha[event.externalId];
      var winner := MergeTwo(merged[k].value, event);
      slots := merged[k := Some(winner)];
      assert Flatten(slots) == Flatten(merged)[k := winner];
    } else {
      NewPlace(seen, event, bySha);
      if event.kind == CommitAuthored { index := bySha[event.externalId := |merged|]; }
      slots := merged + [Some(event)];
      assert Flatten(slots) == Flatten(merged) + [event];
    }
  }

  method DedupCommitAuthored(events: seq<Event>) returns (out: seq<Event>)
    ensures out == Deduped(events)
  {
    var merged: seq<Option<Event>> := [];
    var bySha: map<string, nat> := map[];
    for i := 0 to |events|
      invariant Slotted(merged, bySha, events[..i])
    {
      assert events[..i + 1] == events[..i] + [events[i]];
      merged, bySha := PlaceEvent(merged, bySha, events[i], events[..i]);
    }
    assert events[..|events|] == events;
    out := Flatten(merged);
  }
}
