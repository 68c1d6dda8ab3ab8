/** The in-place passes that attach cross references to events: ticket keys,
    pull-request URLs, the merge request that triggered a transition, and the
    merge request a commit was rolled into. */
module Enrich {
  import opened Basics
  import opened Activity
  import TicketKeys
  import PrUrls

  const MAX_TICKET_KEYS_PER_EVENT := 3

  // ---- attaching entities ----

  predicate HasEntity(entities: seq<EntityRef>, kind: EntityKind, externalId: string) {
    exists i :: 0 <= i < |entities| && entities[i].kind == kind && entities[i].externalId == externalId
  }

  /** Append each reference unless one of its kind and id is already there. */
  function AddMissing(entities: seq<EntityRef>, refs: seq<EntityRef>): seq<EntityRef>
    decreases refs
  {
    if refs == [] then entities
    else if HasEntity(entities, refs[0].kind, refs[0].externalId) then AddMissing(entities, refs[1..])
    else AddMissing(entities + [refs[0]], refs[1..])
  }

  lemma {:induction false} AddMissingKeepsAndAdds(entities: seq<EntityRef>, refs: seq<EntityRef>)
    ensures entities <= AddMissing(entities, refs)
    ensures forall r :: r in refs ==> HasEntity(AddMissing(entities, refs), r.kind, r.externalId)
    ensures forall i :: |entities| <= i < |AddMissing(entities, refs)| ==> AddMissing(entities, refs)[i] in refs
    decreases refs
  {
    if refs != [] {
      var next := if HasEntity(entities, refs[0].kind, refs[0].externalId) then entities else entities + [refs[0]];
      if next != entities { assert next[|entities|] == refs[0]; }
      AddMissingKeepsAndAdds(next, refs[1..]);
      assert HasEntity(next, refs[0].kind, refs[0].externalId);
      PrefixHasEntity(next, AddMissing(next, refs[1..]), refs[0].kind, refs[0].externalId);
    }
  }

  lemma PrefixHasEntity(a: seq<EntityRef>, b: seq<EntityRef>, kind: EntityKind, externalId: string)
    requires a <= b && HasEntity(a, kind, externalId)
    ensures HasEntity(b, kind, externalId)
  {
    var i :| 0 <= i < |a| && a[i].kind == kind && a[i].externalId == externalId;
    assert b[i] == a[i];
  }

  lemma {:induction false} NothingMissing(entities: seq<EntityRef>, refs: seq<EntityRef>)
    requires forall r :: r in refs ==> HasEntity(entities, r.kind, r.externalId)
    ensures AddMissing(entities, refs) == entities
    decreases refs
  {
    if refs != [] {
      assert refs[0] in refs && forall r :: r in refs[1..] ==> r in refs;
      NothingMissing(entities, refs[1..]);
    }
  }

  method PushMissing(entities: seq<EntityRef>, refs: seq<EntityRef>) returns (out: seq<EntityRef>)
    ensures out == AddMissing(entities, refs)
  {
    out := entities;
    for i := 0 to |refs|
      invariant AddMissing(entities, refs) == AddMissing(out, refs[i..])
    {
      assert refs[i..][1..] == refs[i + 1..];
      var already := false;
      for k := 0 to |out|
        invariant already <==> HasEntity(out[..k], refs[i].kind, refs[i].externalId)
      {
        var here := out[k].kind == refs[i].kind && out[k].externalId == refs[i].externalId;
        assert out[..k + 1] == out[..k] + [out[k]];
        assert here ==> out[..k + 1][k] == out[k];
        assert already ==> HasEntity(out[..k + 1], refs[i].kind, refs[i].externalId) by {
          if already { PrefixHasEntity(out[..k], out[..k + 1], refs[i].kind, refs[i].externalId); }
        }
        already := already || here;
      }
      assert out[..|out|] == out;
      if !already { out := out + [refs[i]]; }
    }
  }

  // ---- ticket keys ----

  ghost function TextKeys(title: string, body: Option<string>): seq<string> {
    TicketKeys.Keys(title) + if body.Some? then TicketKeys.Keys(body.value) else []
  }

  function KeyRef(key: string): EntityRef { EntityRef(JiraIssue, key, None) }

  function KeyRefs(keys: seq<string>): (r: seq<EntityRef>)
    ensures |r| == |keys| && forall i :: 0 <= i < |keys| ==> r[i] == KeyRef(keys[i])
  {
    seq(|keys|, i requires 0 <= i < |keys| => KeyRef(keys[i]))
  }

  function SortedKeys(keys: seq<string>): seq<string> {
    DropRepeats(SortBy((a, b) => StrLe(a, b), keys))
  }

  /** The references a text asks for: none at all above the noise threshold. */
  ghost function TicketRefs(e: Event): seq<EntityRef> {
    var keys := SortedKeys(TextKeys(e.title, e.body));
    if |keys| > MAX_TICKET_KEYS_PER_EVENT then [] else KeyRefs(keys)
  }

  ghost function WithTickets(e: Event): Event {
    e.(entities := AddMissing(e.entities, TicketRefs(e)))
  }

  method ExtractTicketKeys(events: array<Event>)
    modifies events
    ensures forall i :: 0 <= i < events.Length ==> events[i] == WithTickets(old(events[i]))
  {
    for n := 0 to events.Length
      invariant forall i :: 0 <= i < n ==> events[i] == WithTickets(old(events[i]))
      invariant forall i :: n <= i < events.Length ==> events[i] == old(events[i])
    {
      var event := events[n];
      var keys := TicketKeys.ScanTicketKeys(event.title, []);
      if event.body.Some? { keys := TicketKeys.ScanTicketKeys(event.body.value, keys); }
      assert keys == TextKeys(event.title, event.body);
      keys := SortedKeys(keys);
      if keys == [] || |keys| > MAX_TICKET_KEYS_PER_EVENT { continue; }
      var entities := PushMissing(event.entities, KeyRefs(keys));
      events[n] := event.(entities := entities);
    }
  }

  // ---- pull-request URLs ----

  ghost function TextRefs(title: string, body: Option<string>): seq<PrUrls.PrRef> {
    PrUrls.Refs(title) + if body.Some? then PrUrls.Refs(body.value) else []
  }

  function PrEntity(ref: PrUrls.PrRef): EntityRef {
    EntityRef(GitHubPullRequest, ref.externalId, Some(ref.caption))
  }

  function PrEntities(refs: seq<PrUrls.PrRef>): (r: seq<EntityRef>)
    ensures |r| == |refs| && forall i :: 0 <= i < |refs| ==> r[i] == PrEntity(refs[i])
  {
    seq(|refs|, i requires 0 <= i < |refs| => PrEntity(refs[i]))
  }

  /** Of references with equal ids next to each other, keep the first. */
  function DropSameIds(refs: seq<PrUrls.PrRef>): seq<PrUrls.PrRef>
    decreases |refs|
  {
    if |refs| < 2 then refs
    else if refs[0].externalId == refs[1].externalId then DropSameIds([refs[0]] + refs[2..])
    else [refs[0]] + DropSameIds(refs[1..])
  }

  function SortedRefs(refs: seq<PrUrls.PrRef>): seq<PrUrls.PrRef> {
    DropSameIds(SortBy((a: PrUrls.PrRef, b: PrUrls.PrRef) => StrLe(a.externalId, b.externalId), refs))
  }

  predicate CarriesPrUrls(kind: ActivityKind) { kind.MrOpened? || kind.MrMerged? }

  ghost function UrlRefs(e: Event): seq<EntityRef> {
    if CarriesPrUrls(e.kind) then PrEntities(SortedRefs(TextRefs(e.title, e.body))) else []
  }

  ghost function WithUrls(e: Event): Event {
    e.(entities := AddMissing(e.entities, UrlRefs(e)))
  }

  method ExtractGithubPrUrls(events: array<Event>)
    modifies events
    ensures forall i :: 0 <= i < events.Length ==> events[i] == WithUrls(old(events[i]))
  {
    for n := 0 to events.Length
      invariant forall i :: 0 <= i < n ==> events[i] == WithUrls(old(events[i]))
      invariant forall i :: n <= i < events.Length ==> events[i] == old(events[i])
    {
      var event := events[n];
      if !CarriesPrUrls(event.kind) { continue; }
      var found := PrUrls.ScanGithubPrUrls(event.title, []);
      if event.body.Some? { found := PrUrls.ScanGithubPrUrls(event.body.value, found); }
      assert found == TextRefs(event.title, event.body);
      if found == [] { continue; }
      var entities := PushMissing(event.entities, PrEntities(SortedRefs(found)));
      events[n] := event.(entities := entities);
    }
  }

  // ---- the noise threshold counts distinct keys ----

  lemma {:induction false} DropRepeatsOfSorted(keys: seq<string>)
    requires SortedBy((a, b) => StrLe(a, b), keys)
    ensures forall i, j :: 0 <= i < j < |DropRepeats(keys)| ==> DropRepeats(keys)[i] != DropRepeats(keys)[j]
    ensures keys != [] ==> DropRepeats(keys) != [] && DropRepeats(keys)[0] == keys[0]
  {
    if |keys| >= 2 {
      var rest := keys[1..];
      assert SortedBy((a, b) => StrLe(a, b), rest) by {
        assert forall i :: 0 <= i < |rest| ==> rest[i] == keys[i + 1];
      }
      DropRepeatsOfSorted(rest);
      if keys[0] != keys[1] {
        DropRepeatsMembers(rest);
        forall j | 0 <= j < |DropRepeats(rest)| ensures DropRepeats(rest)[j] != keys[0] {
          assert DropRepeats(rest)[j] in rest;
          var k :| 0 <= k < |rest| && rest[k] == DropRepeats(rest)[j];
          if rest[k] == keys[0] && k > 0 {
            assert StrLe(keys[0], keys[1]) && StrLe(keys[1], keys[k + 1]);
            StrLeAntisymmetric(keys[0], keys[1]);
          }
        }
      }
    }
  }

  /** The candidates of an event are the distinct keys of its text. */
  lemma SortedKeysAreDistinct(keys: seq<string>)
    ensures forall key :: key in SortedKeys(keys) <==> key in keys
    ensures forall i, j :: 0 <= i < j < |SortedKeys(keys)| ==> SortedKeys(keys)[i] != SortedKeys(keys)[j]
  {
    var le := (a: string, b: string) => StrLe(a, b);
    assert TotalOn(le, keys) by {
      forall x, y ensures StrLe(x, y) || StrLe(y, x) { StrLeTotal(x, y); }
      forall x, y, z | StrLe(x, y) && StrLe(y, z) ensures StrLe(x, z) { StrLeTransitive(x, y, z); }
    }
    SortSorts(le, keys);
    SortMembers(le, keys);
    DropRepeatsOfSorted(SortBy(le, keys));
    DropRepeatsMembers(SortBy(le, keys));
  }

  lemma AddMissingExactly(entities: seq<EntityRef>, refs: seq<EntityRef>, kind: EntityKind, externalId: string)
    ensures HasEntity(AddMissing(entities, refs), kind, externalId) <==>
      HasEntity(entities, kind, externalId) || exists r :: r in refs && r.kind == kind && r.externalId == externalId
  {
    var out := AddMissing(entities, refs);
    AddMissingKeepsAndAdds(entities, refs);
    if HasEntity(entities, kind, externalId) { PrefixHasEntity(entities, out, kind, externalId); }
    if HasEntity(out, kind, externalId) {
      var i :| 0 <= i < |out| && out[i].kind == kind && out[i].externalId == externalId;
      if i < |entities| { assert entities[i] == out[i]; } else { assert out[i] in refs; }
    }
  }
}
