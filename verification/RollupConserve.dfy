/** Before commit sets are merged, the groups are a partition of the events. */
module RollupConserve {
  import opened Basics
  import opened Activity
  import opened Ordered
  import opened Coalesce
  import opened RollupKeys
  import opened Rollup

  ghost predicate DistinctIds(es: seq<Event>) {
    forall i, j :: 0 <= i < j < |es| ==> es[i].id != es[j].id
  }

  /** All events of all groups, counted. */
  function EventsOf(gs: seq<Group>): multiset<Event> {
    if gs == [] then multiset{} else multiset(gs[0].events) + EventsOf(gs[1..])
  }

  lemma {:induction false} EventsOfConcat(a: seq<Group>, b: seq<Group>)
    ensures EventsOf(a + b) == EventsOf(a) + EventsOf(b)
  {
    if a == [] {
      assert a + b == b;
    } else {
      assert (a + b)[1..] == a[1..] + b;
      EventsOfConcat(a[1..], b);
    }
  }

  lemma {:induction false} BagOfDistinct<T>(s: seq<T>)
    requires forall i, j :: 0 <= i < j < |s| ==> s[i] != s[j]
    ensures multiset(s) == multiset(set x | x in s)
  {
    if s != [] {
      BagOfDistinct(s[1..]);
      assert s == [s[0]] + s[1..];
      assert (set x | x in s) == {s[0]} + (set x | x in s[1..]);
    }
  }

  // ---- the index ----

  ghost predicate KeyedById(m: map<nat, Event>) { forall id :: id in m ==> m[id].id == id }

  lemma {:induction false} IndexKeys(es: seq<Event>)
    ensures KeyedById(IndexById(es))
    ensures forall id :: id in IndexById(es) ==> IndexById(es)[id] in es
  {
    if es != [] { IndexKeys(es[..|es| - 1]); }
  }

  lemma {:induction false} IndexHolds(es: seq<Event>)
    requires DistinctIds(es)
    ensures forall e :: e in es ==> e.id in IndexById(es) && IndexById(es)[e.id] == e
  {
    if es != [] {
      IndexHolds(es[..|es| - 1]);
      forall e | e in es ensures e.id in IndexById(es) && IndexById(es)[e.id] == e {
        var i :| 0 <= i < |es| && es[i] == e;
        assert i < |es| - 1 ==> es[..|es| - 1][i] == e;
      }
    }
  }

  /** Of events of one id the index has the last. */
  lemma {:induction false} IndexKeepsLast(es: seq<Event>, i: nat)
    requires i < |es| && forall j :: i < j < |es| ==> es[j].id != es[i].id
    ensures es[i].id in IndexById(es) && IndexById(es)[es[i].id] == es[i]
  {
    if i < |es| - 1 { IndexKeepsLast(es[..|es| - 1], i); }
  }

  lemma IndexIsTheEvents(es: seq<Event>)
    requires DistinctIds(es)
    ensures multiset(IndexById(es).Values) == multiset(es)
  {
    IndexKeys(es);
    IndexHolds(es);
    BagOfDistinct(es);
    assert IndexById(es).Values == set e | e in es;
  }

  // ---- claims ----

  lemma TakeOne(m: map<nat, Event>, id: nat)
    requires KeyedById(m) && id in m
    ensures multiset(m.Values) == multiset{m[id]} + multiset((m - {id}).Values)
  {
    assert m.Values == {m[id]} + (m - {id}).Values by {
      forall e | e in m.Values ensures e == m[id] || e in (m - {id}).Values {
        assert m[e.id] == e;
        if e.id != id { assert (m - {id})[e.id] == e; }
      }
    }
  }

  lemma {:induction false} ClaimConserves(m: map<nat, Event>, ids: seq<nat>)
    requires KeyedById(m)
    ensures multiset(Claim(m, ids)) + multiset((m - IdSet(ids)).Values) == multiset(m.Values)
    decreases ids
  {
    if ids == [] {
      assert m - IdSet(ids) == m;
    } else {
      var left := if ids[0] in m then m - {ids[0]} else m;
      assert left - IdSet(ids[1..]) == m - IdSet(ids);
      ClaimConserves(left, ids[1..]);
      if ids[0] in m { TakeOne(m, ids[0]); }
    }
  }

  lemma {:induction false} ClaimsConserve(m: map<nat, Event>, artifacts: seq<Artifact>)
    requires KeyedById(m)
    ensures EventsOf(ClaimedGroups(m, artifacts)) + multiset(Unclaimed(m, artifacts).Values) == multiset(m.Values)
    ensures KeyedById(Unclaimed(m, artifacts))
    decreases artifacts
  {
    if artifacts != [] {
      var ids := artifacts[0].payload.eventIds;
      ClaimConserves(m, ids);
      ClaimsConserve(m - IdSet(ids), artifacts[1..]);
      SortKeepsElements(EventLe, Claim(m, ids));
    }
  }

  // ---- buckets ----

  lemma InIdOrderIsTheValues(m: map<nat, Event>)
    requires KeyedById(m)
    ensures multiset(InIdOrder(m)) == multiset(m.Values)
  {
    var ids := Ascending(NatLe, m.Keys);
    AscendingMembers(NatLe, m.Keys);
    var es := InIdOrder(m);
    forall i, j | 0 <= i < j < |es| ensures es[i] != es[j] { assert es[i].id == ids[i] && es[j].id == ids[j]; }
    BagOfDistinct(es);
    forall e | e in m.Values ensures e in es {
      assert e.id in ids;
      var i :| 0 <= i < |ids| && ids[i] == e.id;
      assert es[i] == e;
    }
    assert (set e | e in es) == m.Values;
  }

  lemma SplitOff(es: seq<Event>, k: OrphanKey)
    ensures multiset(Bucket(es, k)) + multiset(Without(BucketKey, es, k)) == multiset(es)
  {
    WithAndWithout(BucketKey, es, k);
  }

  function BucketSum(es: seq<Event>, keys: seq<OrphanKey>): multiset<Event> {
    if keys == [] then multiset{} else multiset(Bucket(es, keys[0])) + BucketSum(es, keys[1..])
  }

  lemma {:induction false} BucketSumWithout(es: seq<Event>, keys: seq<OrphanKey>, k: OrphanKey)
    requires k !in keys
    ensures BucketSum(Without(BucketKey, es, k), keys) == BucketSum(es, keys)
  {
    if keys != [] {
      WithOfWithout(BucketKey, es, k, keys[0]);
      BucketSumWithout(es, keys[1..], k);
    }
  }

  lemma HasFirst<T>(s: seq<T>)
    ensures s != [] ==> exists x :: x in s
  {
    if s != [] { assert s[0] in s; }
  }

  lemma {:induction false} BucketsCover(es: seq<Event>, keys: seq<OrphanKey>)
    requires forall i, j :: 0 <= i < j < |keys| ==> keys[i] != keys[j]
    requires forall e :: e in es ==> OrphanKeyOf(e) in keys
    ensures BucketSum(es, keys) == multiset(es)
    decreases |keys|
  {
    if keys == [] {
      HasFirst(es);
    } else {
      var rest := Without(BucketKey, es, keys[0]);
      SplitOff(es, keys[0]);
      forall e | e in rest ensures OrphanKeyOf(e) in keys[1..] {
        assert e in multiset(rest) && e in multiset(es);
        WithMembers(BucketKey, rest, keys[0]);
        WithOfWithout(BucketKey, es, keys[0], keys[0]);
      }
      BucketsCover(rest, keys[1..]);
      BucketSumWithout(es, keys[1..], keys[0]);
    }
  }

  lemma {:induction false} OrphanGroupsHold(es: seq<Event>, keys: seq<OrphanKey>, reportDate: Day)
    requires forall k :: k in keys ==> k in BucketKeys(es)
    ensures EventsOf(OrphanGroupsFor(es, keys, reportDate)) == BucketSum(es, keys)
    decreases |keys|
  {
    if keys != [] {
      assert OrphanGroupsFor(es, keys, reportDate)[1..] == OrphanGroupsFor(es, keys[1..], reportDate);
      OrphanGroupsHold(es, keys[1..], reportDate);
      SortKeepsElements(EventLe, Bucket(es, keys[0]));
    }
  }

  lemma OrphansConserve(rest: map<nat, Event>, reportDate: Day)
    requires KeyedById(rest)
    ensures EventsOf(OrphanGroups(rest, reportDate)) == multiset(rest.Values)
  {
    InIdOrderIsTheValues(rest);
    var es := InIdOrder(rest);
    OrphanGroupsHold(es, BucketOrder(es), reportDate);
    BucketsCover(es, BucketOrder(es));
  }

  /** Before the merge every event sits in exactly one group, once. */
  lemma RawGroupsPartition(es: seq<Event>, artifacts: seq<Artifact>, reportDate: Day)
    requires DistinctIds(es)
    ensures EventsOf(RawGroups(es, artifacts, reportDate)) == multiset(es)
  {
    var m := IndexById(es);
    IndexKeys(es);
    IndexIsTheEvents(es);
    ClaimsConserve(m, artifacts);
    OrphansConserve(Unclaimed(m, artifacts), reportDate);
    EventsOfConcat(ClaimedGroups(m, artifacts), OrphanGroups(Unclaimed(m, artifacts), reportDate));
  }

  // ---- which group ----

  predicate Claims(a: Artifact, id: nat) { id in a.payload.eventIds }

  lemma {:induction false} ClaimMembers(m: map<nat, Event>, ids: seq<nat>, e: Event)
    requires KeyedById(m)
    ensures e in Claim(m, ids) <==> e in m.Values && e.id in ids
    decreases ids
  {
    if ids != [] {
      if ids[0] in m {
        ClaimMembers(m - {ids[0]}, ids[1..], e);
        assert e in m.Values && e.id != ids[0] ==> (m - {ids[0]})[e.id] == e;
        assert e in (m - {ids[0]}).Values ==> m[e.id] == e && e.id != ids[0];
      } else {
        ClaimMembers(m, ids[1..], e);
      }
    }
  }

  lemma {:induction false} ClaimedWhere(m: map<nat, Event>, artifacts: seq<Artifact>, e: Event, i: nat)
    requires KeyedById(m) && e in m.Values && i < |artifacts|
    ensures |ClaimedGroups(m, artifacts)| == |artifacts| && ClaimedGroups(m, artifacts)[i].artifact == artifacts[i]
    ensures e in ClaimedGroups(m, artifacts)[i].events <==>
      Claims(artifacts[i], e.id) && forall j :: 0 <= j < i ==> !Claims(artifacts[j], e.id)
    decreases artifacts
  {
    var ids := artifacts[0].payload.eventIds;
    ClaimMembers(m, ids, e);
    SortMembers(EventLe, Claim(m, ids));
    ClaimedCount(m, artifacts);
    if i > 0 {
      var left := m - IdSet(ids);
      if e.id in ids {
        assert Claims(artifacts[0], e.id);
        ClaimedNever(left, artifacts[1..], e, i - 1);
      } else {
        assert left[e.id] == e;
        ClaimedWhere(left, artifacts[1..], e, i - 1);
        assert forall j :: 0 < j < i ==> artifacts[1..][j - 1] == artifacts[j];
        assert (forall j :: 0 <= j < i - 1 ==> !Claims(artifacts[1..][j], e.id)) ==>
          forall j :: 0 < j < i ==> !Claims(artifacts[j], e.id);
      }
    }
  }

  lemma {:induction false} ClaimedCount(m: map<nat, Event>, artifacts: seq<Artifact>)
    ensures |ClaimedGroups(m, artifacts)| == |artifacts|
    ensures forall i :: 0 <= i < |artifacts| ==> ClaimedGroups(m, artifacts)[i].artifact == artifacts[i]
    decreases artifacts
  {
    if artifacts != [] { ClaimedCount(m - IdSet(artifacts[0].payload.eventIds), artifacts[1..]); }
  }

  lemma {:induction false} ClaimedNever(m: map<nat, Event>, artifacts: seq<Artifact>, e: Event, i: nat)
    requires KeyedById(m) && e.id !in m && i < |artifacts| && |ClaimedGroups(m, artifacts)| == |artifacts|
    ensures e !in ClaimedGroups(m, artifacts)[i].events
    decreases artifacts
  {
    var ids := artifacts[0].payload.eventIds;
    ClaimMembers(m, ids, e);
    SortMembers(EventLe, Claim(m, ids));
    if i > 0 {
      ClaimedCount(m - IdSet(ids), artifacts[1..]);
      ClaimedNever(m - IdSet(ids), artifacts[1..], e, i - 1);
    }
  }

  lemma {:induction false} UnclaimedWhere(m: map<nat, Event>, artifacts: seq<Artifact>)
    ensures forall id :: id in Unclaimed(m, artifacts) <==>
      id in m && forall j :: 0 <= j < |artifacts| ==> !Claims(artifacts[j], id)
    ensures forall id :: id in Unclaimed(m, artifacts) ==> Unclaimed(m, artifacts)[id] == m[id]
    decreases artifacts
  {
    if artifacts != [] {
      UnclaimedWhere(m - IdSet(artifacts[0].payload.eventIds), artifacts[1..]);
      forall id | id in m
        ensures (forall j :: 0 <= j < |artifacts| ==> !Claims(artifacts[j], id)) <==>
          !Claims(artifacts[0], id) && forall j :: 0 <= j < |artifacts[1..]| ==> !Claims(artifacts[1..][j], id)
      {
        assert forall j :: 0 <= j < |artifacts[1..]| ==> artifacts[1..][j] == artifacts[j + 1];
        assert forall j :: 0 < j < |artifacts| ==> artifacts[1..][j - 1] == artifacts[j];
      }
    }
  }

  lemma OrphanWhere(rest: map<nat, Event>, reportDate: Day, e: Event)
    requires KeyedById(rest) && e.id in rest && rest[e.id] == e
    ensures exists g ::
      g in OrphanGroups(rest, reportDate) && e in g.events && g.artifact.id == SyntheticId(OrphanKeyOf(e))
  {
    InIdOrderIsTheValues(rest);
    var es := InIdOrder(rest);
    var keys := BucketOrder(es);
    assert e in rest.Values && e in multiset(es);
    assert OrphanKeyOf(e) in keys;
    var i :| 0 <= i < |keys| && keys[i] == OrphanKeyOf(e);
    WithMembers(BucketKey, es, keys[i]);
    SortMembers(EventLe, Bucket(es, keys[i]));
    assert OrphanGroups(rest, reportDate)[i] == OrphanGroup(es, keys[i], reportDate);
  }

  /** An event goes to the first artifact that claims it, and an event nobody
      claims to the artifact synthesized for its bucket. */
  lemma FirstClaimWins(es: seq<Event>, artifacts: seq<Artifact>, reportDate: Day, e: Event, i: nat)
    requires DistinctIds(es) && e in es && i < |artifacts|
    ensures |RawGroups(es, artifacts, reportDate)| >= |artifacts|
    ensures RawGroups(es, artifacts, reportDate)[i].artifact == artifacts[i]
    ensures e in RawGroups(es, artifacts, reportDate)[i].events <==>
      Claims(artifacts[i], e.id) && forall j :: 0 <= j < i ==> !Claims(artifacts[j], e.id)
  {
    IndexKeys(es);
    IndexHolds(es);
    assert e in IndexById(es).Values;
    ClaimedWhere(IndexById(es), artifacts, e, i);
  }

  lemma UnclaimedIsBucketed(es: seq<Event>, artifacts: seq<Artifact>, reportDate: Day, e: Event)
    requires DistinctIds(es) && e in es && forall j :: 0 <= j < |artifacts| ==> !Claims(artifacts[j], e.id)
    ensures |RawGroups(es, artifacts, reportDate)| >= |artifacts|
    ensures exists g :: g in RawGroups(es, artifacts, reportDate)[|artifacts|..]
                     && e in g.events && g.artifact.id == SyntheticId(OrphanKeyOf(e))
  {
    IndexKeys(es);
    IndexHolds(es);
    UnclaimedWhere(IndexById(es), artifacts);
    ClaimsConserve(IndexById(es), artifacts);
    OrphanWhere(Unclaimed(IndexById(es), artifacts), reportDate, e);
    ClaimedCount(IndexById(es), artifacts);
    assert RawGroups(es, artifacts, reportDate)[|artifacts|..] ==
      OrphanGroups(Unclaimed(IndexById(es), artifacts), reportDate);
  }
}
