/** Which references the two enriching passes attach to an event, exactly. */
module EnrichLaws {
  import opened Basics
  import opened Activity
  import TicketKeys
  import PrUrls
  import opened Enrich

  // ---- ticket keys ----

  /** An entity of the kind and id is in the list. */
  ghost predicate Lists(entities: seq<EntityRef>, kind: EntityKind, externalId: string) {
    exists r :: r in entities && r.kind == kind && r.externalId == externalId
  }

  /** `after` keeps `before` and appends, in alphabetical order, entities of the kind
      whose ids `before` does not list. */
  ghost predicate Appends(before: seq<EntityRef>, after: seq<EntityRef>, kind: EntityKind) {
    && before <= after
    && (forall i :: |before| <= i < |after| ==> after[i].kind == kind && !Lists(before, kind, after[i].externalId))
    && (forall i, j :: |before| <= i < j < |after| ==>
         StrLe(after[i].externalId, after[j].externalId) && after[i].externalId != after[j].externalId)
  }

  /** References of one kind in strictly ascending order of their ids. */
  ghost predicate Ascends(refs: seq<EntityRef>, kind: EntityKind) {
    && (forall i :: 0 <= i < |refs| ==> refs[i].kind == kind)
    && (forall i, j :: 0 <= i < j < |refs| ==>
         StrLe(refs[i].externalId, refs[j].externalId) && refs[i].externalId != refs[j].externalId)
  }

  lemma HasIsListed(entities: seq<EntityRef>, kind: EntityKind, externalId: string)
    ensures HasEntity(entities, kind, externalId) <==> Lists(entities, kind, externalId)
  {
    if r :| r in entities && r.kind == kind && r.externalId == externalId {
      var i :| 0 <= i < |entities| && entities[i] == r;
    }
  }

  lemma ListsOneMore(entities: seq<EntityRef>, r: EntityRef, kind: EntityKind, externalId: string)
    ensures Lists(entities + [r], kind, externalId) <==>
      Lists(entities, kind, externalId) || (r.kind == kind && r.externalId == externalId)
  {
    assert forall x :: x in entities + [r] <==> x in entities || x == r;
    assert r in entities + [r];
  }

  lemma {:induction false} AddingAppends(entities: seq<EntityRef>, refs: seq<EntityRef>, kind: EntityKind)
    requires Ascends(refs, kind)
    ensures Appends(entities, AddMissing(entities, refs), kind)
    ensures forall i :: |entities| <= i < |AddMissing(entities, refs)| ==> AddMissing(entities, refs)[i] in refs
    decreases refs
  {
    if refs != [] {
      var (first, rest) := (refs[0], refs[1..]);
      HasIsListed(entities, kind, first.externalId);
      if HasEntity(entities, kind, first.externalId) {
        AddingAppends(entities, rest, kind);
      } else {
        var next := entities + [first];
        AddingAppends(next, rest, kind);
        AppendsFromNext(entities, first, rest, AddMissing(next, rest), kind);
      }
    }
  }

  lemma AppendsFromNext(entities: seq<EntityRef>, first: EntityRef, rest: seq<EntityRef>, out: seq<EntityRef>,
                        kind: EntityKind)
    requires Ascends([first] + rest, kind) && !Lists(entities, kind, first.externalId)
    requires Appends(entities + [first], out, kind)
    requires forall i :: |entities| < i < |out| ==> out[i] in rest
    ensures Appends(entities, out, kind)
  {
    var next := entities + [first];
    assert out[|entities|] == next[|entities|] == first == ([first] + rest)[0];
    assert entities <= out;
    forall i | |entities| < i < |out|
      ensures !Lists(entities, kind, out[i].externalId)
      ensures StrLe(first.externalId, out[i].externalId) && first.externalId != out[i].externalId
    {
      ListsOneMore(entities, first, kind, out[i].externalId);
      var k :| 0 <= k < |rest| && rest[k] == out[i];
      assert ([first] + rest)[k + 1] == out[i] && ([first] + rest)[0] == first;
    }
  }

  /** The keys the title and the body name. */
  ghost function NamedKeys(e: Event): set<string> {
    (set key | key in TicketKeys.Keys(e.title)) +
    if e.body.Some? then set key | key in TicketKeys.Keys(e.body.value) else {}
  }

  lemma {:induction false} DistinctListIsSet(keys: seq<string>, all: set<string>)
    requires forall i, j :: 0 <= i < j < |keys| ==> keys[i] != keys[j]
    requires forall key :: key in all <==> key in keys
    ensures |all| == |keys|
  {
    if keys == [] {
      assert all == {};
    } else {
      var last := keys[|keys| - 1];
      assert last !in keys[..|keys| - 1];
      DistinctListIsSet(keys[..|keys| - 1], all - {last});
    }
  }

  lemma {:induction false} DropRepeatsSorts(keys: seq<string>)
    requires SortedBy((a, b) => StrLe(a, b), keys)
    ensures SortedBy((a, b) => StrLe(a, b), DropRepeats(keys))
  {
    if |keys| >= 2 {
      var le := (a: string, b: string) => StrLe(a, b);
      FirstIsLeast(le, keys);
      DropRepeatsSorts(keys[1..]);
      DropRepeatsMembers(keys[1..]);
      PrependSorts(le, keys[0], DropRepeats(keys[1..]));
    }
  }

  lemma KeysAscend(keys: seq<string>)
    ensures Ascends(KeyRefs(SortedKeys(keys)), JiraIssue)
  {
    var le := (a: string, b: string) => StrLe(a, b);
    SortedKeysAreDistinct(keys);
    StrLeIsTotal(keys);
    SortSorts(le, keys);
    DropRepeatsSorts(SortBy(le, keys));
    var sorted := SortedKeys(keys);
    assert forall i, j :: 0 <= i < j < |sorted| ==> le(sorted[i], sorted[j]);
  }

  lemma StrLeIsTotal(keys: seq<string>)
    ensures TotalOn((a, b) => StrLe(a, b), keys)
  {
    forall x, y ensures StrLe(x, y) || StrLe(y, x) { StrLeTotal(x, y); }
    forall x, y, z | StrLe(x, y) && StrLe(y, z) ensures StrLe(x, z) { StrLeTransitive(x, y, z); }
  }

  lemma NamedCount(e: Event)
    ensures |SortedKeys(TextKeys(e.title, e.body))| == |NamedKeys(e)|
    ensures forall key :: key in SortedKeys(TextKeys(e.title, e.body)) <==> key in NamedKeys(e)
  {
    var keys := TextKeys(e.title, e.body);
    SortedKeysAreDistinct(keys);
    assert forall key :: key in keys <==> key in NamedKeys(e);
    DistinctListIsSet(SortedKeys(keys), NamedKeys(e));
  }

  /** An event ends up with an issue exactly when it had it, or its title or body names
      the key and they name no more than three keys between them; what is new comes
      last, in alphabetical order and without a caption; nothing else changes. */
  lemma TicketsAttachedExactly(e: Event)
    ensures WithTickets(e) == e.(entities := WithTickets(e).entities)
    ensures Appends(e.entities, WithTickets(e).entities, JiraIssue)
    ensures forall i :: |e.entities| <= i < |WithTickets(e).entities| ==> WithTickets(e).entities[i].caption == None
    ensures forall key :: Lists(WithTickets(e).entities, JiraIssue, key) <==>
      Lists(e.entities, JiraIssue, key) || (|NamedKeys(e)| <= 3 && key in NamedKeys(e))
  {
    KeysAscend(TextKeys(e.title, e.body));
    AddingAppends(e.entities, TicketRefs(e), JiraIssue);
    forall i | |e.entities| <= i < |WithTickets(e).entities| ensures WithTickets(e).entities[i].caption == None {
      TicketHasNoCaption(e, WithTickets(e).entities[i]);
    }
    forall key
      ensures Lists(WithTickets(e).entities, JiraIssue, key) <==>
        Lists(e.entities, JiraIssue, key) || (|NamedKeys(e)| <= 3 && key in NamedKeys(e))
    {
      KeyIsListed(e, key);
    }
  }

  lemma TicketHasNoCaption(e: Event, r: EntityRef)
    requires r in TicketRefs(e)
    ensures r.caption == None
  {
  }

  lemma KeyIsListed(e: Event, key: string)
    ensures Lists(WithTickets(e).entities, JiraIssue, key) <==>
      Lists(e.entities, JiraIssue, key) || (|NamedKeys(e)| <= 3 && key in NamedKeys(e))
  {
    var (keys, refs) := (SortedKeys(TextKeys(e.title, e.body)), TicketRefs(e));
    NamedCount(e);
    HasIsListed(e.entities, JiraIssue, key);
    HasIsListed(WithTickets(e).entities, JiraIssue, key);
    AddMissingExactly(e.entities, refs, JiraIssue, key);
    if |keys| <= MAX_TICKET_KEYS_PER_EVENT && key in keys {
      var i :| 0 <= i < |keys| && keys[i] == key;
      assert refs[i] == KeyRef(key) && refs[i] in refs;
    }
  }

  // ---- pull requests ----

  ghost predicate IdsAscend(refs: seq<PrUrls.PrRef>) {
    forall i, j :: 0 <= i < j < |refs| ==> StrLe(refs[i].externalId, refs[j].externalId)
  }

  lemma SortedIdsAscend(refs: seq<PrUrls.PrRef>)
    ensures var sorted := SortBy((a: PrUrls.PrRef, b: PrUrls.PrRef) => StrLe(a.externalId, b.externalId), refs);
      IdsAscend(sorted) && forall r :: r in sorted <==> r in refs
  {
    var le := (a: PrUrls.PrRef, b: PrUrls.PrRef) => StrLe(a.externalId, b.externalId);
    forall x: string, y ensures StrLe(x, y) || StrLe(y, x) { StrLeTotal(x, y); }
    forall x: string, y, z | StrLe(x, y) && StrLe(y, z) ensures StrLe(x, z) { StrLeTransitive(x, y, z); }
    SortSorts(le, refs);
    SortMembers(le, refs);
    assert forall i, j :: 0 <= i < j < |SortBy(le, refs)| ==> le(SortBy(le, refs)[i], SortBy(le, refs)[j]);
  }

  /** The reference's id is that of one in the list. */
  ghost predicate HasId(refs: seq<PrUrls.PrRef>, id: string) { exists r :: r in refs && r.externalId == id }

  /** One reference for each id, in strict order. */
  ghost predicate OnePerId(refs: seq<PrUrls.PrRef>, out: seq<PrUrls.PrRef>) {
    && (forall r :: r in out ==> r in refs)
    && (forall r :: r in refs ==> HasId(out, r.externalId))
    && (forall i, j :: 0 <= i < j < |out| ==> out[i].externalId != out[j].externalId)
    && IdsAscend(out)
  }

  lemma {:induction false} DropSameIdsOfSorted(refs: seq<PrUrls.PrRef>)
    requires IdsAscend(refs)
    ensures OnePerId(refs, DropSameIds(refs))
    decreases |refs|
  {
    if |refs| < 2 {
      assert forall r :: r in refs ==> HasId(refs, r.externalId);
    } else if refs[0].externalId == refs[1].externalId {
      var rest := [refs[0]] + refs[2..];
      assert IdsAscend(rest) by { assert forall i :: 0 < i < |rest| ==> rest[i] == refs[i + 1]; }
      DropSameIdsOfSorted(rest);
      WithoutTwin(refs, DropSameIds(rest));
    } else {
      assert IdsAscend(refs[1..]);
      DropSameIdsOfSorted(refs[1..]);
      WithFirst(refs, DropSameIds(refs[1..]));
    }
  }

  lemma WithoutTwin(refs: seq<PrUrls.PrRef>, out: seq<PrUrls.PrRef>)
    requires |refs| >= 2 && refs[0].externalId == refs[1].externalId && OnePerId([refs[0]] + refs[2..], out)
    ensures OnePerId(refs, out)
  {
    var rest := [refs[0]] + refs[2..];
    assert refs == [refs[0], refs[1]] + refs[2..];
    assert refs[0] in rest && forall r :: r in refs <==> r in rest || r == refs[1];
  }

  lemma FirstIsBelow(refs: seq<PrUrls.PrRef>, r: PrUrls.PrRef)
    requires |refs| >= 2 && refs[0].externalId != refs[1].externalId && IdsAscend(refs) && r in refs[1..]
    ensures StrLe(refs[0].externalId, r.externalId) && refs[0].externalId != r.externalId
  {
    var k :| 0 < k < |refs| && refs[k] == r;
    if k > 1 && refs[k].externalId == refs[0].externalId {
      StrLeAntisymmetric(refs[0].externalId, refs[1].externalId);
    }
  }

  lemma WithFirst(refs: seq<PrUrls.PrRef>, out: seq<PrUrls.PrRef>)
    requires |refs| >= 2 && refs[0].externalId != refs[1].externalId && IdsAscend(refs) && OnePerId(refs[1..], out)
    ensures OnePerId(refs, [refs[0]] + out)
  {
    forall r | r in out
      ensures r in refs && StrLe(refs[0].externalId, r.externalId) && refs[0].externalId != r.externalId
    {
      FirstIsBelow(refs, r);
    }
    forall r | r in refs ensures HasId([refs[0]] + out, r.externalId) {
      if r == refs[0] { assert r in [refs[0]] + out; } else { StillHasId(refs[0], out, r.externalId); }
    }
    FirstAscends(refs[0], out);
  }

  lemma FirstAscends(first: PrUrls.PrRef, out: seq<PrUrls.PrRef>)
    requires forall r :: r in out ==> StrLe(first.externalId, r.externalId) && first.externalId != r.externalId
    requires IdsAscend(out) && forall i, j :: 0 <= i < j < |out| ==> out[i].externalId != out[j].externalId
    ensures var all := [first] + out;
      IdsAscend(all) && forall i, j :: 0 <= i < j < |all| ==> all[i].externalId != all[j].externalId
  {
    assert forall i :: 0 <= i < |out| ==> out[i] in out;
  }

  lemma StillHasId(first: PrUrls.PrRef, out: seq<PrUrls.PrRef>, id: string)
    requires HasId(out, id)
    ensures HasId([first] + out, id)
  {
    var o :| o in out && o.externalId == id;
    assert o in [first] + out;
  }

  lemma RefsAscend(refs: seq<PrUrls.PrRef>)
    ensures OnePerId(refs, SortedRefs(refs)) && Ascends(PrEntities(SortedRefs(refs)), GitHubPullRequest)
  {
    SortedIdsAscend(refs);
    var sorted := SortBy((a: PrUrls.PrRef, b: PrUrls.PrRef) => StrLe(a.externalId, b.externalId), refs);
    assert SortedRefs(refs) == DropSameIds(sorted);
    DropSameIdsOfSorted(sorted);
    assert IdsAscend(SortedRefs(refs));
  }

  /** The pull requests the title and the body link to. */
  ghost predicate LinksTo(e: Event, ref: PrUrls.PrRef) {
    ref in PrUrls.Refs(e.title) || (e.body.Some? && ref in PrUrls.Refs(e.body.value))
  }

  /** The entity says what a link says. */
  ghost predicate FromLink(e: Event, r: EntityRef) {
    exists ref :: LinksTo(e, ref) && r == EntityRef(GitHubPullRequest, ref.externalId, Some(ref.caption))
  }

  /** Opened and merged requests of GitLab, and no others, get exactly the pull requests
      their title or body links to, under the caption of the link. */
  lemma PrUrlsAttachedExactly(e: Event)
    ensures WithUrls(e) == e.(entities := WithUrls(e).entities)
    ensures e.kind != MrOpened && e.kind != MrMerged ==> WithUrls(e) == e
    ensures Appends(e.entities, WithUrls(e).entities, GitHubPullRequest)
    ensures forall i :: |e.entities| <= i < |WithUrls(e).entities| ==> FromLink(e, WithUrls(e).entities[i])
    ensures e.kind == MrOpened || e.kind == MrMerged ==>
      forall ref :: LinksTo(e, ref) ==> Lists(WithUrls(e).entities, GitHubPullRequest, ref.externalId)
  {
    if CarriesPrUrls(e.kind) {
      RefsAscend(TextRefs(e.title, e.body));
      AddingAppends(e.entities, UrlRefs(e), GitHubPullRequest);
      forall i | |e.entities| <= i < |WithUrls(e).entities| ensures FromLink(e, WithUrls(e).entities[i]) {
        EntityFromLink(e, WithUrls(e).entities[i]);
      }
      forall ref | LinksTo(e, ref) ensures Lists(WithUrls(e).entities, GitHubPullRequest, ref.externalId) {
        LinkIsListed(e, ref);
      }
    }
  }

  lemma EntityFromLink(e: Event, r: EntityRef)
    requires CarriesPrUrls(e.kind) && r in UrlRefs(e)
    ensures FromLink(e, r)
  {
    var found := SortedRefs(TextRefs(e.title, e.body));
    RefsAscend(TextRefs(e.title, e.body));
    var k :| 0 <= k < |found| && PrEntities(found)[k] == r;
    assert found[k] in found && LinksTo(e, found[k]);
  }

  lemma LinkIsListed(e: Event, ref: PrUrls.PrRef)
    requires CarriesPrUrls(e.kind) && LinksTo(e, ref)
    ensures Lists(WithUrls(e).entities, GitHubPullRequest, ref.externalId)
  {
    var found := SortedRefs(TextRefs(e.title, e.body));
    RefsAscend(TextRefs(e.title, e.body));
    assert ref in TextRefs(e.title, e.body) && HasId(found, ref.externalId);
    var k :| 0 <= k < |found| && found[k].externalId == ref.externalId;
    ListedByAdding(e.entities, UrlRefs(e), k);
  }

  lemma ListedByAdding(entities: seq<EntityRef>, refs: seq<EntityRef>, k: nat)
    requires k < |refs|
    ensures Lists(AddMissing(entities, refs), refs[k].kind, refs[k].externalId)
  {
    AddMissingExactly(entities, refs, refs[k].kind, refs[k].externalId);
    assert refs[k] in refs;
    HasIsListed(AddMissing(entities, refs), refs[k].kind, refs[k].externalId);
  }
}
