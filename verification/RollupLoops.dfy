/** The loops that build the groups, each against the function it computes. */
module RollupLoops {
  import opened Basics
  import opened Activity
  import opened Ordered
  import opened Coalesce
  import opened RollupKeys
  import opened Rollup

  lemma {:induction false} ClaimSnoc<K, V>(m: map<K, V>, ids: seq<K>, k: K)
    ensures Claim(m, ids + [k]) == Claim(m, ids) + if k in m && k !in ids then [m[k]] else []
    decreases ids
  {
    if ids == [] {
      assert ids + [k] == [k];
    } else {
      assert (ids + [k])[1..] == ids[1..] + [k];
      if ids[0] in m { ClaimSnoc(m - {ids[0]}, ids[1..], k); } else { ClaimSnoc(m, ids[1..], k); }
      assert k in ids <==> k == ids[0] || k in ids[1..];
    }
  }

  /** The loop that empties a map in the order of a key list. */
  method TakeOut<K(==), V>(index: map<K, V>, ids: seq<K>) returns (taken: seq<V>, rest: map<K, V>)
    ensures taken == Claim(index, ids)
    ensures forall k :: k in rest <==> k in index && k !in ids
    ensures forall k :: k in rest ==> rest[k] == index[k]
  {
    taken, rest := [], index;
    for i := 0 to |ids|
      invariant taken == Claim(index, ids[..i])
      invariant forall k :: k in rest <==> k in index && k !in ids[..i]
      invariant forall k :: k in rest ==> rest[k] == index[k]
    {
      ClaimSnoc(index, ids[..i], ids[i]);
      assert ids[..i + 1] == ids[..i] + [ids[i]];
      if ids[i] in rest {
        taken := taken + [rest[ids[i]]];
        rest := rest - {ids[i]};
      }
    }
    assert ids[..|ids|] == ids;
  }

  method ClaimEvents(index: map<nat, Event>, artifacts: seq<Artifact>)
    returns (groups: seq<Group>, rest: map<nat, Event>)
    ensures groups == ClaimedGroups(index, artifacts) && rest == Unclaimed(index, artifacts)
  {
    groups, rest := [], index;
    for i := 0 to |artifacts|
      invariant ClaimedGroups(index, artifacts) == groups + ClaimedGroups(rest, artifacts[i..])
      invariant Unclaimed(index, artifacts) == Unclaimed(rest, artifacts[i..])
    {
      var ids := artifacts[i].payload.eventIds;
      assert artifacts[i..][1..] == artifacts[i + 1..];
      var claimed, left := TakeOut(rest, ids);
      assert left == rest - IdSet(ids);
      groups := groups + [Group(artifacts[i], SortedEvents(claimed))];
      rest := left;
    }
  }

  method BuildIndex(events: seq<Event>) returns (index: map<nat, Event>)
    ensures index == IndexById(events)
  {
    index := map[];
    for i := 0 to |events|
      invariant index == IndexById(events[..i])
    {
      assert events[..i + 1][..i] == events[..i];
      index := index[events[i].id := events[i]];
    }
    assert events[..|events|] == events;
  }

  // ---- orphans ----

  function EventsAt(byKey: map<OrphanKey, seq<Event>>, k: OrphanKey): seq<Event> {
    if k in byKey then byKey[k] else []
  }

  /** The buckets hold, per key, the events seen so far with that key. */
  ghost predicate Bucketed(byKey: map<OrphanKey, seq<Event>>, seen: seq<Event>) {
    byKey.Keys == BucketKeys(seen) && forall k :: EventsAt(byKey, k) == Bucket(seen, k)
  }

  lemma BucketsGrow(byKey: map<OrphanKey, seq<Event>>, seen: seq<Event>, e: Event)
    requires Bucketed(byKey, seen)
    ensures Bucketed(byKey[OrphanKeyOf(e) := EventsAt(byKey, OrphanKeyOf(e)) + [e]], seen + [e])
  {
    var k := OrphanKeyOf(e);
    var grown := byKey[k := EventsAt(byKey, k) + [e]];
    forall j ensures EventsAt(grown, j) == Bucket(seen + [e], j) {
      WithSnoc(BucketKey, seen, e, j);
      assert EventsAt(byKey, j) == Bucket(seen, j);
    }
    assert e in seen + [e] && BucketKeys(seen + [e]) == BucketKeys(seen) + {k};
  }

  ghost predicate BucketedUpTo(byKey: map<OrphanKey, seq<Event>>, es: seq<Event>, i: nat)
    requires i <= |es|
  {
    Bucketed(byKey, es[..i])
  }

  lemma BucketOneMore(byKey: map<OrphanKey, seq<Event>>, es: seq<Event>, i: nat)
    requires i < |es| && BucketedUpTo(byKey, es, i)
    ensures BucketedUpTo(byKey[OrphanKeyOf(es[i]) := EventsAt(byKey, OrphanKeyOf(es[i])) + [es[i]]], es, i + 1)
  {
    BucketsGrow(byKey, es[..i], es[i]);
    assert es[..i + 1] == es[..i] + [es[i]];
  }

  method BucketInOrder(rest: map<nat, Event>, ids: seq<nat>, ghost es: seq<Event>)
    returns (byKey: map<OrphanKey, seq<Event>>)
    requires |ids| == |es| && forall i :: 0 <= i < |ids| ==> ids[i] in rest && rest[ids[i]] == es[i]
    ensures BucketedUpTo(byKey, es, |es|)
  {
    byKey := map[];
    for i := 0 to |ids|
      invariant BucketedUpTo(byKey, es, i)
    {
      var event := rest[ids[i]];
      BucketOneMore(byKey, es, i);
      byKey := byKey[OrphanKeyOf(event) := EventsAt(byKey, OrphanKeyOf(event)) + [event]];
    }
  }

  method BucketOrphans(rest: map<nat, Event>) returns (byKey: map<OrphanKey, seq<Event>>)
    ensures Bucketed(byKey, InIdOrder(rest))
  {
    var ids := Walk(NatLe, rest.Keys);
    AscendingMembers(NatLe, rest.Keys);
    ghost var es := InIdOrder(rest);
    byKey := BucketInOrder(rest, ids, es);
    assert es[..|es|] == es;
  }

  method KeysInOrder(byKey: map<OrphanKey, seq<Event>>, ghost es: seq<Event>) returns (keys: seq<OrphanKey>)
    requires byKey.Keys == BucketKeys(es)
    ensures keys == BucketOrder(es)
  {
    KeyLeIsTotalOrder();
    keys := Walk(KeyLe, byKey.Keys);
  }

  method GroupsOfBuckets(byKey: map<OrphanKey, seq<Event>>, ghost es: seq<Event>, reportDate: Day)
    returns (groups: seq<Group>)
    requires Bucketed(byKey, es)
    ensures groups == OrphanGroupsFor(es, BucketOrder(es), reportDate)
  {
    var keys := KeysInOrder(byKey, es);
    groups := [];
    for i := 0 to |keys|
      invariant |groups| == i && forall j :: 0 <= j < i ==> groups[j] == OrphanGroup(es, keys[j], reportDate)
    {
      assert keys[i] in keys;
      var group := GroupOfBucket(byKey, es, keys[i], reportDate);
      groups := groups + [group];
    }
  }

  method GroupOfBucket(byKey: map<OrphanKey, seq<Event>>, ghost es: seq<Event>, key: OrphanKey, reportDate: Day)
    returns (group: Group)
    requires Bucketed(byKey, es) && key in byKey
    ensures key in BucketKeys(es) && group == OrphanGroup(es, key, reportDate)
  {
    assert EventsAt(byKey, key) == Bucket(es, key);
    assert key in byKey.Keys;
    BucketIsNotEmpty(es, key);
    var events := SortedEvents(byKey[key]);
    group := Group(Synthesize(key, events, reportDate), events);
  }

  method OrphansToGroups(rest: map<nat, Event>, reportDate: Day) returns (groups: seq<Group>)
    ensures groups == OrphanGroups(rest, reportDate)
  {
    var byKey := BucketOrphans(rest);
    groups := GroupsOfBuckets(byKey, InIdOrder(rest), reportDate);
  }

  // ---- merging ----

  /** The keys of a list at their first occurrence. */
  function Firsts(order: seq<SetKey>): seq<SetKey> {
    if order == [] then []
    else
      var last := order[|order| - 1];
      Firsts(order[..|order| - 1]) + if last in order[..|order| - 1] then [] else [last]
  }

  lemma {:induction false} ClaimByFirsts(m: map<SetKey, Group>, order: seq<SetKey>)
    requires forall k :: k in order ==> k in m
    ensures |Claim(m, order)| == |Firsts(order)| && forall k :: k in Firsts(order) <==> k in order
    ensures forall i :: 0 <= i < |Firsts(order)| ==> Claim(m, order)[i] == m[Firsts(order)[i]]
  {
    if order != [] {
      var (front, last) := (order[..|order| - 1], order[|order| - 1]);
      assert order == front + [last];
      ClaimByFirsts(m, front);
      ClaimSnoc(m, front, last);
    }
  }

  /** What the merge loop holds for one key after the groups `seen`. */
  ghost predicate PooledAt(seen: seq<Group>, firsts: seq<SetKey>, byKey: map<SetKey, Group>, k: SetKey) {
    && (k in byKey <==> With(SetKeyOf, seen, k) != [])
    && (k in byKey ==>
          && PlaceOf(SetKeyOf, seen, k) < |firsts|
          && firsts[PlaceOf(SetKeyOf, seen, k)] == k
          && byKey[k] == Fold(MergedGroup, With(SetKeyOf, seen, k)))
  }

  ghost predicate Pooled(seen: seq<Group>, order: seq<SetKey>, byKey: map<SetKey, Group>) {
    && (forall k :: k in order <==> k in byKey)
    && |Firsts(order)| == |MergedSets(seen)|
    && (forall k :: PooledAt(seen, Firsts(order), byKey, k))
  }

  lemma PooledAtNew(seen: seq<Group>, firsts: seq<SetKey>, byKey: map<SetKey, Group>, g: Group, key: SetKey, k: SetKey)
    requires PooledAt(seen, firsts, byKey, k) && SetKeyOf(g) == Some(key)
    requires With(SetKeyOf, seen, key) == [] && |firsts| == |MergedSets(seen)|
    ensures PooledAt(seen + [g], firsts + [key], byKey[key := g], k)
  {
    WithSnoc(SetKeyOf, seen, g, k);
    PlaceSnoc(SetKeyOf, MergedGroup, seen, g, k);
  }

  lemma PoolNew(seen: seq<Group>, order: seq<SetKey>, byKey: map<SetKey, Group>, g: Group, key: SetKey)
    requires Pooled(seen, order, byKey) && SetKeyOf(g) == Some(key) && key !in byKey
    ensures Pooled(seen + [g], order + [key], byKey[key := g])
  {
    assert (order + [key])[..|order|] == order;
    assert PooledAt(seen, Firsts(order), byKey, key);
    CoalescedSnocNew(SetKeyOf, MergedGroup, seen, g);
    var (now, firsts, grown) := (seen + [g], Firsts(order) + [key], byKey[key := g]);
    forall k ensures PooledAt(now, firsts, grown, k) {
      assert PooledAt(seen, Firsts(order), byKey, k);
      PooledAtNew(seen, Firsts(order), byKey, g, key, k);
    }
  }

  /** How one more group of a key seen before moves lists and places. */
  lemma SeenMoves(seen: seq<Group>, g: Group, key: SetKey, k: SetKey)
    requires SetKeyOf(g) == Some(key) && With(SetKeyOf, seen, key) != []
    ensures With(SetKeyOf, seen + [g], k) != [] <==> With(SetKeyOf, seen, k) != []
    ensures With(SetKeyOf, seen, k) != [] ==> PlaceOf(SetKeyOf, seen + [g], k) == PlaceOf(SetKeyOf, seen, k)
    ensures With(SetKeyOf, seen, k) != [] ==>
      var held := Fold(MergedGroup, With(SetKeyOf, seen, k));
      Fold(MergedGroup, With(SetKeyOf, seen + [g], k)) == if k == key then MergedGroup(held, g) else held
  {
    WithSnoc(SetKeyOf, seen, g, k);
    PlaceSnoc(SetKeyOf, MergedGroup, seen, g, k);
    if k == key { FoldSnoc(MergedGroup, With(SetKeyOf, seen, key), g); }
  }

  lemma SeenKeepsLength(seen: seq<Group>, g: Group, key: SetKey)
    requires SetKeyOf(g) == Some(key) && With(SetKeyOf, seen, key) != []
    ensures |MergedSets(seen + [g])| == |MergedSets(seen)|
  {
    KeyHasOnePlace(SetKeyOf, MergedGroup, seen, key);
    CoalescedSnocSeen(SetKeyOf, MergedGroup, seen, g, key);
  }

  lemma SeenKeepsFirsts(order: seq<SetKey>, key: SetKey, again: seq<SetKey>)
    requires key in order && (again == order || again == order + [key])
    ensures Firsts(again) == Firsts(order) && forall k :: k in again <==> k in order
  {
    if again == order + [key] { assert again[..|order|] == order; }
  }

  lemma PooledAtSeen(seen: seq<Group>, firsts: seq<SetKey>, byKey: map<SetKey, Group>, g: Group, key: SetKey, k: SetKey)
    requires PooledAt(seen, firsts, byKey, k) && PooledAt(seen, firsts, byKey, key)
    requires SetKeyOf(g) == Some(key) && key in byKey
    ensures PooledAt(seen + [g], firsts, byKey[key := MergedGroup(byKey[key], g)], k)
  {
    SeenMoves(seen, g, key, k);
  }

  lemma PoolSeen(seen: seq<Group>, order: seq<SetKey>, byKey: map<SetKey, Group>, g: Group, key: SetKey,
                 again: seq<SetKey>)
    requires Pooled(seen, order, byKey) && SetKeyOf(g) == Some(key) && key in byKey
    requires again == order || again == order + [key]
    ensures Pooled(seen + [g], again, byKey[key := MergedGroup(byKey[key], g)])
  {
    SeenKeepsFirsts(order, key, again);
    assert PooledAt(seen, Firsts(order), byKey, key);
    SeenKeepsLength(seen, g, key);
    var (now, grown) := (seen + [g], byKey[key := MergedGroup(byKey[key], g)]);
    forall k ensures PooledAt(now, Firsts(order), grown, k) {
      assert PooledAt(seen, Firsts(order), byKey, k);
      PooledAtSeen(seen, Firsts(order), byKey, g, key, k);
    }
  }

  lemma PooledIsMerged(seen: seq<Group>, order: seq<SetKey>, byKey: map<SetKey, Group>)
    requires Pooled(seen, order, byKey)
    ensures Claim(byKey, order) == MergedSets(seen)
  {
    ClaimByFirsts(byKey, order);
    forall i | 0 <= i < |MergedSets(seen)| ensures Claim(byKey, order)[i] == MergedSets(seen)[i] {
      MergedKeepsKey();
      var k := SetKeyOf(MergedSets(seen)[i]).value;
      assert PooledAt(seen, Firsts(order), byKey, k);
      KeyedIsAtItsPlace(SetKeyOf, MergedGroup, seen, i);
      KeyHasOnePlace(SetKeyOf, MergedGroup, seen, k);
    }
  }

  lemma MergedKeepsKey()
    ensures KeepsKey(SetKeyOf, MergedGroup)
  {
  }

  /** Push the events of a colliding commit set that are not there yet. */
  method AbsorbEvents(existing: seq<Event>, more: seq<Event>) returns (es: seq<Event>)
    ensures es == Absorb(existing, more)
  {
    es := existing;
    var seen := set i | 0 <= i < |existing| :: existing[i].externalId;
    for i := 0 to |more|
      invariant Absorb(existing, more) == Absorb(es, more[i..])
      invariant forall x :: x in seen <==> HasExternalId(es, x)
    {
      assert more[i..][1..] == more[i + 1..];
      if more[i].externalId !in seen {
        ghost var before := es;
        seen := seen + {more[i].externalId};
        es := es + [more[i]];
        forall x ensures x in seen <==> HasExternalId(es, x) {
          if HasExternalId(before, x) {
            var j :| 0 <= j < |before| && before[j].externalId == x;
            assert es[j].externalId == x;
          }
          assert es[|before|] == more[i];
        }
      }
    }
  }

  method MergeDuplicateCommitSets(groups: seq<Group>) returns (merged: seq<Group>)
    ensures merged == MergedSets(groups)
  {
    var byKey: map<SetKey, Group> := map[];
    var order: seq<SetKey> := [];
    for i := 0 to |groups|
      invariant Pooled(groups[..i], order, byKey)
    {
      var group := groups[i];
      var key := SetKeyOf(group).value;
      assert groups[..i + 1] == groups[..i] + [group];
      if key !in byKey {
        PoolNew(groups[..i], order, byKey, group, key);
        order := order + [key];
        byKey := byKey[key := group];
      } else if group.artifact.payload.CommitSet? {
        PoolSeen(groups[..i], order, byKey, group, key, order);
        assert PooledAt(groups[..i], Firsts(order), byKey, key);
        KeyTellsCommitSet(groups[..i], key, byKey[key], group);
        var events := AbsorbEvents(byKey[key].events, group.events);
        byKey := byKey[key := Group(byKey[key].artifact, SortedEvents(events))];
      } else {
        PoolSeen(groups[..i], order, byKey, group, key, order + [key]);
        assert PooledAt(groups[..i], Firsts(order), byKey, key);
        KeyTellsCommitSet(groups[..i], key, byKey[key], group);
        order := order + [key];
        byKey := byKey[key := group];
      }
    }
    assert groups[..|groups|] == groups;
    PooledIsMerged(groups, order, byKey);
    var rest;
    merged, rest := TakeOut(byKey, order);
  }

  lemma KeyTellsCommitSet(seen: seq<Group>, key: SetKey, held: Group, g: Group)
    requires With(SetKeyOf, seen, key) != [] && held == Fold(MergedGroup, With(SetKeyOf, seen, key))
    requires SetKeyOf(g) == Some(key)
    ensures held.artifact.payload.CommitSet? <==> g.artifact.payload.CommitSet?
  {
    MergedKeepsKey();
    WithMembers(SetKeyOf, seen, key);
    FoldHasKey(SetKeyOf, MergedGroup, With(SetKeyOf, seen, key), key);
  }

  method RollUp(events: seq<Event>, artifacts: seq<Artifact>, reportDate: Day) returns (groups: seq<Group>)
    ensures groups == RolledUp(events, artifacts, reportDate)
  {
    var index := BuildIndex(events);
    var rest;
    groups, rest := ClaimEvents(index, artifacts);
    var orphans := OrphansToGroups(rest, reportDate);
    groups := MergeDuplicateCommitSets(groups + orphans);
    groups := SortBy(GroupLe, groups);
  }
}
