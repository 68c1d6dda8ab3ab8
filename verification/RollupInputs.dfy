/** When the rollup loses events, and when its groups have distinct ids, told on
    the events and artifacts it is given. */
module RollupInputs {
  import opened Basics
  import opened Activity
  import opened Text
  import opened Coalesce
  import opened RollupKeys
  import opened Rollup
  import opened RollupConserve
  import opened RollupMerge
  import opened RollupTheorems

  // ---- where an event belongs ----

  predicate Free(artifacts: seq<Artifact>, e: Event) {
    forall j :: 0 <= j < |artifacts| ==> !Claims(artifacts[j], e.id)
  }

  predicate FirstClaims(artifacts: seq<Artifact>, i: nat, e: Event)
    requires i < |artifacts|
  {
    Claims(artifacts[i], e.id) && forall j :: 0 <= j < i ==> !Claims(artifacts[j], e.id)
  }

  predicate HasSet(a: Artifact) { a.payload.CommitSet? }

  function MergeKeyOf(a: Artifact): SetKey { SetKeyOf(Group(a, [])).value }

  function BucketMergeKey(k: OrphanKey): SetKey { if k.RepoDay? then RepoSet(k.path, k.day) else Alone(SyntheticId(k)) }

  /** The merge key of the group an event falls into: that of the first artifact
      that claims it, or of its bucket. */
  function HomeKey(artifacts: seq<Artifact>, e: Event): SetKey {
    if artifacts == [] then BucketMergeKey(OrphanKeyOf(e))
    else if Claims(artifacts[0], e.id) then MergeKeyOf(artifacts[0])
    else HomeKey(artifacts[1..], e)
  }

  lemma {:induction false} HomeIsFirstClaim(artifacts: seq<Artifact>, e: Event)
    ensures Free(artifacts, e) ==> HomeKey(artifacts, e) == BucketMergeKey(OrphanKeyOf(e))
    ensures forall i :: 0 <= i < |artifacts| && FirstClaims(artifacts, i, e) ==>
      HomeKey(artifacts, e) == MergeKeyOf(artifacts[i])
  {
    if artifacts != [] && !Claims(artifacts[0], e.id) {
      var rest := artifacts[1..];
      HomeIsFirstClaim(rest, e);
      assert forall j :: 0 <= j < |rest| ==> rest[j] == artifacts[j + 1];
      forall i | 0 <= i < |artifacts| && FirstClaims(artifacts, i, e)
        ensures HomeKey(artifacts, e) == MergeKeyOf(artifacts[i])
      {
        FirstClaimInRest(artifacts, i, e);
      }
    }
  }

  lemma FirstClaimInRest(artifacts: seq<Artifact>, i: nat, e: Event)
    requires i < |artifacts| && FirstClaims(artifacts, i, e) && !Claims(artifacts[0], e.id)
    ensures i > 0 && FirstClaims(artifacts[1..], i - 1, e)
  {
    var rest := artifacts[1..];
    assert forall j :: 0 <= j < |rest| ==> rest[j] == artifacts[j + 1];
  }

  // ---- the shape of the groups before the merge ----

  /** A group synthesized for a bucket: its id, kind, merge key and events. */
  ghost predicate HoldsBucket(g: Group, k: OrphanKey) {
    && g.artifact.id == SyntheticId(k)
    && g.artifact.kind == SyntheticId(k).kind
    && (g.artifact.payload.Meeting? <==> k.MeetingDay?)
    && (IsSet(g) <==> k.RepoDay?)
    && SetKeyOf(g) == Some(BucketMergeKey(k))
    && BucketOfArtifact(g.artifact) == k
    && g.events != []
    && forall e :: e in g.events ==> OrphanKeyOf(e) == k
  }

  lemma OrphanGroupShape(es: seq<Event>, k: OrphanKey, reportDate: Day)
    requires k in BucketKeys(es)
    ensures HoldsBucket(OrphanGroup(es, k, reportDate), k)
  {
    BucketIsNotEmpty(es, k);
    WithMembers(BucketKey, es, k);
    SortMembers(EventLe, Bucket(es, k));
  }

  ghost predicate FreeKey(es: seq<Event>, artifacts: seq<Artifact>, k: OrphanKey) {
    exists e :: e in es && Free(artifacts, e) && OrphanKeyOf(e) == k
  }

  lemma OrphansAreFree(es: seq<Event>, artifacts: seq<Artifact>, e: Event)
    requires DistinctIds(es)
    ensures e in InIdOrder(Unclaimed(IndexById(es), artifacts)) <==> e in es && Free(artifacts, e)
  {
    var rest := Unclaimed(IndexById(es), artifacts);
    IndexKeys(es);
    IndexHolds(es);
    UnclaimedWhere(IndexById(es), artifacts);
    ClaimsConserve(IndexById(es), artifacts);
    InIdOrderIsTheValues(rest);
    assert e in InIdOrder(rest) <==> e in multiset(rest.Values);
    if e in es && Free(artifacts, e) { assert e.id in rest && rest[e.id] == e; }
    if e in rest.Values {
      var id :| id in rest && rest[id] == e;
      assert e.id == id;
    }
  }

  /** The claimed groups in artifact order, then one group per free bucket. */
  ghost predicate Layout(es: seq<Event>, artifacts: seq<Artifact>, raw: seq<Group>, keys: seq<OrphanKey>) {
    && |raw| == |artifacts| + |keys|
    && (forall i :: 0 <= i < |artifacts| ==> raw[i].artifact == artifacts[i])
    && (forall i :: 0 <= i < |keys| ==> HoldsBucket(raw[|artifacts| + i], keys[i]))
    && (forall i, j :: 0 <= i < j < |keys| ==> keys[i] != keys[j])
    && (forall k {:trigger FreeKey(es, artifacts, k)} :: k in keys <==> FreeKey(es, artifacts, k))
  }

  /** Together they hold every event once, a claimed group what it claims first. */
  ghost predicate RawShape(es: seq<Event>, artifacts: seq<Artifact>, raw: seq<Group>, keys: seq<OrphanKey>) {
    && Layout(es, artifacts, raw, keys)
    && (forall i, e :: 0 <= i < |artifacts| && e in es ==> (e in raw[i].events <==> FirstClaims(artifacts, i, e)))
    && EventsOf(raw) == multiset(es)
  }

  lemma RawGroupsShape(es: seq<Event>, artifacts: seq<Artifact>, reportDate: Day) returns (keys: seq<OrphanKey>)
    requires DistinctIds(es)
    ensures RawShape(es, artifacts, RawGroups(es, artifacts, reportDate), keys)
  {
    var raw := RawGroups(es, artifacts, reportDate);
    var all := InIdOrder(Unclaimed(IndexById(es), artifacts));
    keys := BucketOrder(all);
    ClaimedCount(IndexById(es), artifacts);
    RawGroupsPartition(es, artifacts, reportDate);
    forall i, e | 0 <= i < |artifacts| && e in es ensures e in raw[i].events <==> FirstClaims(artifacts, i, e) {
      FirstClaimWins(es, artifacts, reportDate, e, i);
    }
    forall i | 0 <= i < |keys| ensures HoldsBucket(raw[|artifacts| + i], keys[i]) {
      OrphanGroupShape(all, keys[i], reportDate);
    }
    forall k ensures k in keys <==> FreeKey(es, artifacts, k) {
      if k in keys {
        var e :| e in all && OrphanKeyOf(e) == k;
        OrphansAreFree(es, artifacts, e);
      }
      if e :| e in es && Free(artifacts, e) && OrphanKeyOf(e) == k { OrphansAreFree(es, artifacts, e); }
    }
  }

  // ---- ids that tell groups apart ----

  /** An artifact with the id of an event's bucket merges with it. */
  predicate MeetsBucket(a: Artifact, e: Event) {
    a.id == SyntheticId(OrphanKeyOf(e)) ==> MergeKeyOf(a) == BucketMergeKey(OrphanKeyOf(e))
  }

  /** Artifacts of one id merge, and an artifact with the id of a free bucket
      merges with that bucket. */
  ghost predicate IdsTellKeys(es: seq<Event>, artifacts: seq<Artifact>) {
    && (forall i, j :: 0 <= i < j < |artifacts| && artifacts[i].id == artifacts[j].id ==>
          MergeKeyOf(artifacts[i]) == MergeKeyOf(artifacts[j]))
    && (forall i, e {:trigger MeetsBucket(artifacts[i], e)} :: 0 <= i < |artifacts| && e in es && Free(artifacts, e) ==>
          MeetsBucket(artifacts[i], e))
  }

  lemma BucketsOfOneIdMerge(a: OrphanKey, b: OrphanKey)
    ensures SyntheticId(a) == SyntheticId(b) ==> BucketMergeKey(a) == BucketMergeKey(b)
  {
    IdsCollideExactly(a, b);
  }

  /** Groups of one id have one merge key exactly when the inputs say so. */
  lemma IdsTellKeysExactly(es: seq<Event>, artifacts: seq<Artifact>, reportDate: Day)
    requires DistinctIds(es)
    ensures IdTellsKey(RawGroups(es, artifacts, reportDate)) <==> IdsTellKeys(es, artifacts)
  {
    var keys := RawGroupsShape(es, artifacts, reportDate);
    ShapeTellsKeys(es, artifacts, RawGroups(es, artifacts, reportDate), keys);
    ShapeIsTold(es, artifacts, RawGroups(es, artifacts, reportDate), keys);
  }

  lemma ShapeTellsKeys(es: seq<Event>, artifacts: seq<Artifact>, raw: seq<Group>, keys: seq<OrphanKey>)
    requires Layout(es, artifacts, raw, keys)
    ensures IdsTellKeys(es, artifacts) ==> IdTellsKey(raw)
  {
    if IdsTellKeys(es, artifacts) {
      forall i, j | 0 <= i < j < |raw| && raw[i].artifact.id == raw[j].artifact.id
        ensures SetKeyOf(raw[i]) == SetKeyOf(raw[j])
      {
        SourceOf(es, artifacts, raw, keys, i);
        SourceOf(es, artifacts, raw, keys, j);
        SourcesMeet(es, artifacts,
                    raw[i], if i < |artifacts| then OfArtifact(i) else OfBucket(keys[i - |artifacts|]),
                    raw[j], if j < |artifacts| then OfArtifact(j) else OfBucket(keys[j - |artifacts|]));
      }
    }
  }

  lemma ArtifactAt(es: seq<Event>, artifacts: seq<Artifact>, raw: seq<Group>, keys: seq<OrphanKey>, i: nat)
    requires Layout(es, artifacts, raw, keys) && i < |artifacts|
    ensures i < |raw| && raw[i].artifact == artifacts[i] && SetKeyOf(raw[i]) == Some(MergeKeyOf(artifacts[i]))
  {
  }

  lemma BucketAt(es: seq<Event>, artifacts: seq<Artifact>, raw: seq<Group>, keys: seq<OrphanKey>, j: nat)
    requires Layout(es, artifacts, raw, keys) && |artifacts| <= j < |raw|
    ensures j - |artifacts| < |keys| && HoldsBucket(raw[j], keys[j - |artifacts|])
    ensures FreeKey(es, artifacts, keys[j - |artifacts|])
  {
    var k := keys[j - |artifacts|];
    assert HoldsBucket(raw[|artifacts| + (j - |artifacts|)], k) && k in keys;
    assert FreeKey(es, artifacts, k) <==> k in keys;
  }

  /** Where a group comes from: an artifact, by its place, or a free bucket. */
  datatype Source = OfArtifact(i: nat) | OfBucket(k: OrphanKey)

  ghost predicate ComesFrom(es: seq<Event>, artifacts: seq<Artifact>, g: Group, source: Source) {
    match source
    case OfArtifact(i) => i < |artifacts| && g.artifact == artifacts[i]
    case OfBucket(k) => HoldsBucket(g, k) && FreeKey(es, artifacts, k)
  }

  lemma SourceOf(es: seq<Event>, artifacts: seq<Artifact>, raw: seq<Group>, keys: seq<OrphanKey>, i: nat)
    requires Layout(es, artifacts, raw, keys) && i < |raw|
    ensures |artifacts| <= i ==> i - |artifacts| < |keys|
    ensures ComesFrom(es, artifacts, raw[i], if i < |artifacts| then OfArtifact(i) else OfBucket(keys[i - |artifacts|]))
  {
    if i < |artifacts| { ArtifactAt(es, artifacts, raw, keys, i); } else { BucketAt(es, artifacts, raw, keys, i); }
  }

  lemma SourcesMeet(es: seq<Event>, artifacts: seq<Artifact>, g: Group, a: Source, h: Group, b: Source)
    requires IdsTellKeys(es, artifacts) && ComesFrom(es, artifacts, g, a) && ComesFrom(es, artifacts, h, b)
    requires g.artifact.id == h.artifact.id
    ensures SetKeyOf(g) == SetKeyOf(h)
  {
    match (a, b)
    case (OfArtifact(i), OfArtifact(j)) =>
      if i < j { ArtifactsMeet(es, artifacts, i, j); }
      if j < i { ArtifactsMeet(es, artifacts, j, i); }
    case (OfArtifact(i), OfBucket(k)) => ArtifactMeetsBucket(es, artifacts, i, h, k);
    case (OfBucket(k), OfArtifact(j)) => ArtifactMeetsBucket(es, artifacts, j, g, k);
    case (OfBucket(k), OfBucket(l)) => BucketsOfOneIdMerge(k, l);
  }

  lemma ArtifactsMeet(es: seq<Event>, artifacts: seq<Artifact>, i: nat, j: nat)
    requires IdsTellKeys(es, artifacts) && i < j < |artifacts| && artifacts[i].id == artifacts[j].id
    ensures MergeKeyOf(artifacts[i]) == MergeKeyOf(artifacts[j])
  {
  }

  lemma ArtifactMeetsBucket(es: seq<Event>, artifacts: seq<Artifact>, i: nat, g: Group, k: OrphanKey)
    requires IdsTellKeys(es, artifacts) && i < |artifacts| && HoldsBucket(g, k) && FreeKey(es, artifacts, k)
    requires artifacts[i].id == g.artifact.id
    ensures SetKeyOf(g) == Some(MergeKeyOf(artifacts[i]))
  {
    var e :| e in es && Free(artifacts, e) && OrphanKeyOf(e) == k;
    assert MeetsBucket(artifacts[i], e);
  }

  lemma FreeBucketAt(es: seq<Event>, artifacts: seq<Artifact>, raw: seq<Group>, keys: seq<OrphanKey>, e: Event)
    returns (j: nat)
    requires Layout(es, artifacts, raw, keys) && e in es && Free(artifacts, e)
    ensures j < |keys| && keys[j] == OrphanKeyOf(e) && HoldsBucket(raw[|artifacts| + j], keys[j])
  {
    assert FreeKey(es, artifacts, OrphanKeyOf(e));
    j :| 0 <= j < |keys| && keys[j] == OrphanKeyOf(e);
  }

  lemma KeysAreTold(raw: seq<Group>, i: nat, j: nat)
    requires IdTellsKey(raw) && i < j < |raw| && raw[i].artifact.id == raw[j].artifact.id
    ensures SetKeyOf(raw[i]) == SetKeyOf(raw[j])
  {
  }

  lemma ShapeIsTold(es: seq<Event>, artifacts: seq<Artifact>, raw: seq<Group>, keys: seq<OrphanKey>)
    requires Layout(es, artifacts, raw, keys)
    ensures IdTellsKey(raw) ==> IdsTellKeys(es, artifacts)
  {
    if IdTellsKey(raw) {
      forall i, j | 0 <= i < j < |artifacts| && artifacts[i].id == artifacts[j].id
        ensures MergeKeyOf(artifacts[i]) == MergeKeyOf(artifacts[j])
      {
        ArtifactAt(es, artifacts, raw, keys, i);
        ArtifactAt(es, artifacts, raw, keys, j);
        KeysAreTold(raw, i, j);
      }
      forall i, e | 0 <= i < |artifacts| && e in es && Free(artifacts, e) ensures MeetsBucket(artifacts[i], e) {
        BucketIsTold(es, artifacts, raw, keys, i, e);
      }
    }
  }

  lemma BucketIsTold(es: seq<Event>, artifacts: seq<Artifact>, raw: seq<Group>, keys: seq<OrphanKey>, i: nat, e: Event)
    requires Layout(es, artifacts, raw, keys) && IdTellsKey(raw) && i < |artifacts|
    requires e in es && Free(artifacts, e)
    ensures MeetsBucket(artifacts[i], e)
  {
    var j := FreeBucketAt(es, artifacts, raw, keys, e);
    ArtifactAt(es, artifacts, raw, keys, i);
    if artifacts[i].id == SyntheticId(OrphanKeyOf(e)) { KeysAreTold(raw, i, |artifacts| + j); }
  }

  // ---- what is lost ----

  ghost predicate HoldsNothing(es: seq<Event>, artifacts: seq<Artifact>, i: nat)
    requires i < |artifacts|
  {
    forall e :: e in es ==> !FirstClaims(artifacts, i, e)
  }

  /** Free events whose buckets get one artifact id are in one bucket. */
  ghost predicate FreeIdentitiesAreKeys(es: seq<Event>, artifacts: seq<Artifact>) {
    forall e, f ::
      e in es && f in es && Free(artifacts, e) && Free(artifacts, f) && SameIdentity(OrphanKeyOf(e), OrphanKeyOf(f)) ==>
      OrphanKeyOf(e) == OrphanKeyOf(f)
  }

  /** An artifact outside the commit sets has the id of a free event's bucket. */
  ghost predicate SharesBucketId(artifacts: seq<Artifact>, i: nat, e: Event)
    requires i < |artifacts|
  {
    Free(artifacts, e) && !HasSet(artifacts[i]) && !OrphanKeyOf(e).RepoDay?
      && artifacts[i].id == SyntheticId(OrphanKeyOf(e))
  }

  /** An artifact outside the commit sets that holds events shares its id with no
      later one of its sort and with no bucket, and buckets share none. */
  ghost predicate NothingOverwritten(es: seq<Event>, artifacts: seq<Artifact>) {
    && (forall i, j ::
         0 <= i < j < |artifacts| && !HasSet(artifacts[i]) && !HasSet(artifacts[j])
           && artifacts[i].id == artifacts[j].id ==>
          HoldsNothing(es, artifacts, i))
    && (forall i, e {:trigger SharesBucketId(artifacts, i, e)} ::
         0 <= i < |artifacts| && e in es && SharesBucketId(artifacts, i, e) ==>
          HoldsNothing(es, artifacts, i))
    && FreeIdentitiesAreKeys(es, artifacts)
  }

  lemma EmptyIsNothing(es: seq<Event>, artifacts: seq<Artifact>, raw: seq<Group>, keys: seq<OrphanKey>, i: nat)
    requires RawShape(es, artifacts, raw, keys) && i < |artifacts|
    ensures raw[i].events == [] <==> HoldsNothing(es, artifacts, i)
  {
    if raw[i].events != [] {
      var e := raw[i].events[0];
      EventsOfMembers(raw, e);
      assert e in multiset(es);
      assert FirstClaims(artifacts, i, e);
    }
  }

  lemma BucketIdsDiffer(es: seq<Event>, artifacts: seq<Artifact>, raw: seq<Group>, keys: seq<OrphanKey>, i: nat, j: nat)
    requires Layout(es, artifacts, raw, keys) && i < j < |keys|
    ensures raw[|artifacts| + i].artifact.id == raw[|artifacts| + j].artifact.id <==> SameIdentity(keys[i], keys[j])
    ensures FreeIdentitiesAreKeys(es, artifacts) ==> !SameIdentity(keys[i], keys[j])
    ensures SameIdentity(keys[i], keys[j]) ==> !keys[i].RepoDay? && !keys[j].RepoDay?
  {
    assert HoldsBucket(raw[|artifacts| + i], keys[i]) && HoldsBucket(raw[|artifacts| + j], keys[j]);
    IdsCollideExactly(keys[i], keys[j]);
    assert FreeKey(es, artifacts, keys[i]) && FreeKey(es, artifacts, keys[j]);
    var e :| e in es && Free(artifacts, e) && OrphanKeyOf(e) == keys[i];
    var f :| f in es && Free(artifacts, f) && OrphanKeyOf(f) == keys[j];
  }

  lemma ShapeOverwritesNothing(es: seq<Event>, artifacts: seq<Artifact>, raw: seq<Group>, keys: seq<OrphanKey>)
    requires RawShape(es, artifacts, raw, keys) && NothingOverwritten(es, artifacts)
    ensures NoIdReuse(raw)
  {
    forall i, j | 0 <= i < j < |raw| && !IsSet(raw[i]) && !IsSet(raw[j]) && raw[i].artifact.id == raw[j].artifact.id
      ensures raw[i].events == []
    {
      if i >= |artifacts| {
        BucketIdsDiffer(es, artifacts, raw, keys, i - |artifacts|, j - |artifacts|);
      } else {
        OverwrittenHeldNothing(es, artifacts, raw, keys, i, j);
        EmptyIsNothing(es, artifacts, raw, keys, i);
      }
    }
  }

  lemma OverwrittenHeldNothing(es: seq<Event>, artifacts: seq<Artifact>, raw: seq<Group>, keys: seq<OrphanKey>, i: nat,
                               j: nat)
    requires Layout(es, artifacts, raw, keys) && NothingOverwritten(es, artifacts) && i < j < |raw| && i < |artifacts|
    requires !IsSet(raw[i]) && !IsSet(raw[j]) && raw[i].artifact.id == raw[j].artifact.id
    ensures HoldsNothing(es, artifacts, i)
  {
    ArtifactAt(es, artifacts, raw, keys, i);
    if j < |artifacts| {
      ArtifactAt(es, artifacts, raw, keys, j);
    } else {
      BucketAt(es, artifacts, raw, keys, j);
      var e :| e in es && Free(artifacts, e) && OrphanKeyOf(e) == keys[j - |artifacts|];
      assert SharesBucketId(artifacts, i, e);
    }
  }

  lemma ReuseFreeIdentities(es: seq<Event>, artifacts: seq<Artifact>, raw: seq<Group>, keys: seq<OrphanKey>)
    requires Layout(es, artifacts, raw, keys) && NoIdReuse(raw)
    ensures FreeIdentitiesAreKeys(es, artifacts)
  {
    forall e, f
      | e in es && f in es && Free(artifacts, e) && Free(artifacts, f) && SameIdentity(OrphanKeyOf(e), OrphanKeyOf(f))
      ensures OrphanKeyOf(e) == OrphanKeyOf(f)
    {
      var i := FreeBucketAt(es, artifacts, raw, keys, e);
      var j := FreeBucketAt(es, artifacts, raw, keys, f);
      SharedIdentityIsOneBucket(es, artifacts, raw, keys, i, j);
    }
  }

  lemma SharedIdentityIsOneBucket(es: seq<Event>, artifacts: seq<Artifact>, raw: seq<Group>, keys: seq<OrphanKey>,
                                  i: nat, j: nat)
    requires Layout(es, artifacts, raw, keys) && NoIdReuse(raw) && i < |keys| && j < |keys|
    requires SameIdentity(keys[i], keys[j])
    ensures i == j
  {
    IdsCollideExactly(keys[i], keys[j]);
    IdsCollideExactly(keys[j], keys[i]);
    if i < j { UnusedIdsDiffer(es, artifacts, raw, keys, i, j); }
    if j < i { UnusedIdsDiffer(es, artifacts, raw, keys, j, i); }
  }

  lemma UnusedIdsDiffer(es: seq<Event>, artifacts: seq<Artifact>, raw: seq<Group>, keys: seq<OrphanKey>, i: nat, j: nat)
    requires Layout(es, artifacts, raw, keys) && NoIdReuse(raw) && i < j < |keys|
    ensures !SameIdentity(keys[i], keys[j])
  {
    BucketAt(es, artifacts, raw, keys, |artifacts| + i);
    BucketAt(es, artifacts, raw, keys, |artifacts| + j);
    IdsCollideExactly(keys[i], keys[j]);
    assert keys[i] != keys[j];
  }

  lemma ReuseOverwritesNothing(es: seq<Event>, artifacts: seq<Artifact>, raw: seq<Group>, keys: seq<OrphanKey>)
    requires RawShape(es, artifacts, raw, keys) && NoIdReuse(raw)
    ensures NothingOverwritten(es, artifacts)
  {
    var n := |artifacts|;
    ReuseFreeIdentities(es, artifacts, raw, keys);
    forall i, j | 0 <= i < j < n && !HasSet(artifacts[i]) && !HasSet(artifacts[j]) && artifacts[i].id == artifacts[j].id
      ensures HoldsNothing(es, artifacts, i)
    {
      assert raw[i].artifact == artifacts[i] && raw[j].artifact == artifacts[j];
      EmptyIsNothing(es, artifacts, raw, keys, i);
    }
    forall i, e | 0 <= i < n && e in es && SharesBucketId(artifacts, i, e) ensures HoldsNothing(es, artifacts, i) {
      var j := FreeBucketAt(es, artifacts, raw, keys, e);
      assert raw[i].artifact == artifacts[i];
      EmptyIsNothing(es, artifacts, raw, keys, i);
    }
  }

  lemma NothingOverwrittenExactly(es: seq<Event>, artifacts: seq<Artifact>, reportDate: Day)
    requires DistinctIds(es)
    ensures NoIdReuse(RawGroups(es, artifacts, reportDate)) <==> NothingOverwritten(es, artifacts)
  {
    var raw := RawGroups(es, artifacts, reportDate);
    var keys := RawGroupsShape(es, artifacts, reportDate);
    if NoIdReuse(raw) { ReuseOverwritesNothing(es, artifacts, raw, keys); }
    if NothingOverwritten(es, artifacts) { ShapeOverwritesNothing(es, artifacts, raw, keys); }
  }

  /** The event is in the output, or the commit set of its repository and day is
      there and holds an event of its external id. */
  ghost predicate AccountedFor(out: seq<Group>, artifacts: seq<Artifact>, e: Event) {
    e in EventsOf(out)
    || exists o ::
         o in out && IsSet(o) && SetKeyOf(o) == Some(HomeKey(artifacts, e)) && HasExternalId(o.events, e.externalId)
  }

  /** The one group of an event has the event's home key. */
  lemma HomeOf(es: seq<Event>, artifacts: seq<Artifact>, raw: seq<Group>, keys: seq<OrphanKey>, e: Event)
    returns (j: nat)
    requires DistinctIds(es) && RawShape(es, artifacts, raw, keys) && e in es
    ensures j < |raw| && e in raw[j].events && SetKeyOf(raw[j]) == Some(HomeKey(artifacts, e)) && EventsOf(raw)[e] == 1
    ensures j < |artifacts| ==> FirstClaims(artifacts, j, e)
    ensures j >= |artifacts| ==> OrphanKeyOf(e) == keys[j - |artifacts|] && Free(artifacts, e)
  {
    OnceEach(es, e);
    EventsOfMembers(raw, e);
    j :| 0 <= j < |raw| && e in raw[j].events;
    HomeIsFirstClaim(artifacts, e);
    if j < |artifacts| {
      assert FirstClaims(artifacts, j, e);
    } else {
      assert HoldsBucket(raw[|artifacts| + (j - |artifacts|)], keys[j - |artifacts|]);
      forall i | 0 <= i < |artifacts| ensures !FirstClaims(artifacts, i, e) { NotElsewhere(raw, i, j, e); }
      NobodyFirst(artifacts, e, |artifacts|);
    }
  }

  lemma NotElsewhere(raw: seq<Group>, i: nat, j: nat, e: Event)
    requires EventsOf(raw)[e] == 1 && i < |raw| && j < |raw| && i != j && e in raw[j].events
    ensures e !in raw[i].events
  {
    if e in raw[i].events { InOneGroup(raw, i, j, e); }
  }

  lemma {:induction false} NobodyFirst(artifacts: seq<Artifact>, e: Event, n: nat)
    requires n <= |artifacts| && forall i :: 0 <= i < n ==> !FirstClaims(artifacts, i, e)
    ensures forall i :: 0 <= i < n ==> !Claims(artifacts[i], e.id)
  {
    if n > 0 {
      NobodyFirst(artifacts, e, n - 1);
      assert !FirstClaims(artifacts, n - 1, e);
    }
  }

  lemma AccountedByHome(es: seq<Event>, artifacts: seq<Artifact>, raw: seq<Group>, keys: seq<OrphanKey>,
                        out: seq<Group>, e: Event)
    requires DistinctIds(es) && RawShape(es, artifacts, raw, keys) && e in es
    ensures AccountedFor(out, artifacts, e) <==> Accounted(out, raw, e)
  {
    var j := HomeOf(es, artifacts, raw, keys, e);
    forall o | o in out
      ensures StandsIn(o, raw, e) <==>
        IsSet(o) && SetKeyOf(o) == Some(HomeKey(artifacts, e)) && HasExternalId(o.events, e.externalId)
    {
      if StandsIn(o, raw, e) {
        var i :| 0 <= i < |raw| && e in raw[i].events && SetKeyOf(raw[i]) == SetKeyOf(o);
        InOneGroup(raw, i, j, e);
      }
    }
  }

  /** The rollup of distinct events repeats none of them. And every event is in the
      output, or stood in for in the commit set of its repository and day, exactly
      when the inputs overwrite nothing. */
  lemma RollUpPartition(es: seq<Event>, artifacts: seq<Artifact>, reportDate: Day)
    requires DistinctIds(es)
    ensures EventsOf(RolledUp(es, artifacts, reportDate)) <= multiset(es)
    ensures (forall e :: e in es ==> AccountedFor(RolledUp(es, artifacts, reportDate), artifacts, e)) <==>
      NothingOverwritten(es, artifacts)
  {
    var (raw, out) := (RawGroups(es, artifacts, reportDate), RolledUp(es, artifacts, reportDate));
    var keys := RawGroupsShape(es, artifacts, reportDate);
    RawPartition(es, artifacts, reportDate);
    NothingOverwrittenExactly(es, artifacts, reportDate);
    forall e | e in es ensures AccountedFor(out, artifacts, e) <==> Accounted(out, raw, e) {
      AccountedByHome(es, artifacts, raw, keys, out, e);
    }
  }

  // ---- single events ----

  /** No later artifact outside the commit sets, and no free bucket, has the id. */
  ghost predicate IdNotReused(es: seq<Event>, artifacts: seq<Artifact>, i: nat)
    requires i < |artifacts|
  {
    && (forall j :: i < j < |artifacts| && !HasSet(artifacts[j]) ==> artifacts[j].id != artifacts[i].id)
    && (forall f :: f in es ==> !SharesBucketId(artifacts, i, f))
  }

  ghost predicate NoLaterId(raw: seq<Group>, i: nat)
    requires i < |raw|
  {
    forall j :: i < j < |raw| && !IsSet(raw[j]) ==> raw[j].artifact.id != raw[i].artifact.id
  }

  /** An event claimed for an artifact outside the commit sets is in the output
      exactly when no later such artifact and no free bucket has the id. */
  lemma ClaimedEventStaysExactly(es: seq<Event>, artifacts: seq<Artifact>, reportDate: Day, i: nat, e: Event)
    requires DistinctIds(es) && e in es && i < |artifacts| && FirstClaims(artifacts, i, e) && !HasSet(artifacts[i])
    ensures e in EventsOf(RolledUp(es, artifacts, reportDate)) <==> IdNotReused(es, artifacts, i)
  {
    var raw := RawGroups(es, artifacts, reportDate);
    var keys := RawGroupsShape(es, artifacts, reportDate);
    OnceEach(es, e);
    AloneEventKept(raw, i, e);
    SortKeepsEvents(MergedSets(raw));
    if NoLaterId(raw, i) { NoLaterIdIsTold(es, artifacts, raw, keys, i); }
    if IdNotReused(es, artifacts, i) { NotReusedMeansNoLater(es, artifacts, raw, keys, i); }
  }

  lemma NoLaterIdIsTold(es: seq<Event>, artifacts: seq<Artifact>, raw: seq<Group>, keys: seq<OrphanKey>, i: nat)
    requires Layout(es, artifacts, raw, keys) && i < |artifacts| && NoLaterId(raw, i) && !HasSet(artifacts[i])
    ensures IdNotReused(es, artifacts, i)
  {
    ArtifactAt(es, artifacts, raw, keys, i);
    forall j | i < j < |artifacts| && !HasSet(artifacts[j]) ensures artifacts[j].id != artifacts[i].id {
      ArtifactAt(es, artifacts, raw, keys, j);
    }
    forall f | f in es ensures !SharesBucketId(artifacts, i, f) {
      if Free(artifacts, f) { var j := FreeBucketAt(es, artifacts, raw, keys, f); }
    }
  }

  lemma NotReusedMeansNoLater(es: seq<Event>, artifacts: seq<Artifact>, raw: seq<Group>, keys: seq<OrphanKey>, i: nat)
    requires Layout(es, artifacts, raw, keys) && i < |artifacts| && IdNotReused(es, artifacts, i)
    requires !HasSet(artifacts[i])
    ensures NoLaterId(raw, i)
  {
    ArtifactAt(es, artifacts, raw, keys, i);
    forall j | i < j < |raw| && !IsSet(raw[j]) ensures raw[j].artifact.id != raw[i].artifact.id {
      if j < |artifacts| {
        ArtifactAt(es, artifacts, raw, keys, j);
      } else {
        BucketIdIsFree(es, artifacts, raw, keys, i, j);
      }
    }
  }

  lemma BucketIdIsFree(es: seq<Event>, artifacts: seq<Artifact>, raw: seq<Group>, keys: seq<OrphanKey>, i: nat, j: nat)
    requires Layout(es, artifacts, raw, keys) && i < |artifacts| <= j < |raw| && !IsSet(raw[j]) && !HasSet(artifacts[i])
    requires forall f :: f in es ==> !SharesBucketId(artifacts, i, f)
    ensures raw[j].artifact.id != artifacts[i].id
  {
    BucketAt(es, artifacts, raw, keys, j);
    var f :| f in es && Free(artifacts, f) && OrphanKeyOf(f) == keys[j - |artifacts|];
    assert !SharesBucketId(artifacts, i, f);
  }

  /** A merge-request event that no artifact claims is never lost. */
  lemma MergeRequestEventsStay(es: seq<Event>, artifacts: seq<Artifact>, reportDate: Day, e: Event)
    requires DistinctIds(es) && e in es && Free(artifacts, e) && OrphanKeyOf(e).MrDay?
    ensures e in EventsOf(RolledUp(es, artifacts, reportDate))
  {
    var raw := RawGroups(es, artifacts, reportDate);
    var keys := RawGroupsShape(es, artifacts, reportDate);
    FreeMergeRequestStays(es, artifacts, raw, keys, e);
    SortKeepsEvents(MergedSets(raw));
  }

  lemma FreeMergeRequestStays(es: seq<Event>, artifacts: seq<Artifact>, raw: seq<Group>, keys: seq<OrphanKey>, e: Event)
    requires DistinctIds(es) && RawShape(es, artifacts, raw, keys)
    requires e in es && Free(artifacts, e) && OrphanKeyOf(e).MrDay?
    ensures e in EventsOf(MergedSets(raw))
  {
    var n := |artifacts|;
    var j := HomeOf(es, artifacts, raw, keys, e);
    MergeRequestIdIsAlone(es, artifacts, raw, keys, j);
    AloneEventKept(raw, j, e);
  }

  lemma MergeRequestIdIsAlone(es: seq<Event>, artifacts: seq<Artifact>, raw: seq<Group>, keys: seq<OrphanKey>, j: nat)
    requires Layout(es, artifacts, raw, keys) && |artifacts| <= j < |raw| && keys[j - |artifacts|].MrDay?
    ensures !IsSet(raw[j]) && forall i :: j < i < |raw| ==> raw[i].artifact.id != raw[j].artifact.id
  {
    BucketAt(es, artifacts, raw, keys, j);
    forall i | j < i < |raw| ensures raw[i].artifact.id != raw[j].artifact.id {
      MergeRequestIdDiffers(es, artifacts, raw, keys, j, i);
    }
  }

  lemma MergeRequestIdDiffers(es: seq<Event>, artifacts: seq<Artifact>, raw: seq<Group>, keys: seq<OrphanKey>, j: nat,
                              i: nat)
    requires Layout(es, artifacts, raw, keys) && |artifacts| <= j < i < |raw| && keys[j - |artifacts|].MrDay?
    ensures raw[i].artifact.id != raw[j].artifact.id
  {
    BucketAt(es, artifacts, raw, keys, j);
    BucketAt(es, artifacts, raw, keys, i);
    MergeRequestBucketIsAlone(raw[j], raw[i], keys[j - |artifacts|], keys[i - |artifacts|]);
  }

  lemma MergeRequestBucketIsAlone(g: Group, h: Group, a: OrphanKey, b: OrphanKey)
    requires HoldsBucket(g, a) && HoldsBucket(h, b) && a.MrDay? && a != b
    ensures g.artifact.id != h.artifact.id
  {
    IdsCollideExactly(a, b);
  }

  // ---- common inputs ----

  /** Two events whose buckets get the same artifact id fall into the same bucket. */
  ghost predicate IdentitiesAreKeys(es: seq<Event>) {
    forall e, f :: e in es && f in es && SameIdentity(OrphanKeyOf(e), OrphanKeyOf(f)) ==>
      OrphanKeyOf(e) == OrphanKeyOf(f)
  }

  /** When all artifacts are commit sets, as on a day with local repositories only,
      nothing is overwritten exactly when no two free events agree on the issue and
      day but not the project, on the page and day but not the space, or on the
      meeting but not the day. */
  lemma CommitSetsOverwriteNothing(es: seq<Event>, artifacts: seq<Artifact>)
    requires forall i :: 0 <= i < |artifacts| ==> HasSet(artifacts[i])
    ensures NothingOverwritten(es, artifacts) <==> FreeIdentitiesAreKeys(es, artifacts)
    ensures IdentitiesAreKeys(es) ==> NothingOverwritten(es, artifacts)
    ensures artifacts == [] ==> (NothingOverwritten(es, artifacts) <==> IdentitiesAreKeys(es))
  {
  }

  /** A commit set as the local-git connector builds it. */
  predicate IsLocalGit(a: Artifact) {
    && a.payload.CommitSet? && a.kind.CommitSetKind?
    && a.externalId == a.payload.repoPath + "::" + ShowInt(a.payload.date)
    && a.id == ArtifactId(a.sourceId, CommitSetKind, a.externalId)
  }

  lemma LocalGitIdIsNotSynthetic(a: Artifact, k: OrphanKey)
    requires IsLocalGit(a)
    ensures a.id != SyntheticId(k)
  {
    if k.RepoDay? {
      ShowIntAlphabet(a.payload.date);
      var (x, y) := (a.externalId, CommitSetExternalId(k.path, k.day));
      assert x[|x| - 1] == ShowInt(a.payload.date)[|ShowInt(a.payload.date)| - 1];
      assert y[|y| - 1] == "::synthetic"[10];
    }
  }

  /** The ids of local-git artifacts always tell merge keys apart, from each other
      and from every bucket. */
  lemma LocalGitIdsTellKeys(es: seq<Event>, artifacts: seq<Artifact>)
    requires forall i :: 0 <= i < |artifacts| ==> IsLocalGit(artifacts[i])
    ensures IdsTellKeys(es, artifacts)
  {
    forall i, j | 0 <= i < j < |artifacts| && artifacts[i].id == artifacts[j].id
      ensures MergeKeyOf(artifacts[i]) == MergeKeyOf(artifacts[j])
    {
      DayEndsText(artifacts[i].payload.repoPath, artifacts[i].payload.date, artifacts[j].payload.repoPath,
                  artifacts[j].payload.date);
    }
    forall i, e | 0 <= i < |artifacts| && e in es ensures MeetsBucket(artifacts[i], e) {
      LocalGitIdIsNotSynthetic(artifacts[i], OrphanKeyOf(e));
    }
  }

  lemma TransitionKey(e: Event, project: string, issue: EntityRef)
    requires e.kind.JiraIssueTransitioned? && project != "" && issue.kind.JiraIssue?
    requires e.entities == [EntityRef(JiraProject, project, None), issue]
    ensures OrphanKeyOf(e) == IssueDay(e.sourceId, issue.externalId, project, DayOf(e.occurredAt))
  {
    assert e.entities[1..] == [issue];
    assert FirstEntity([issue], JiraIssue) == Some(issue);
  }

  /** Two transitions of one issue, recorded under two projects on one day: one of
      them is lost. */
  lemma IssueInTwoProjectsLosesEvent(reportDate: Day) returns (es: seq<Event>, e: Event)
    ensures DistinctIds(es) && e in es && !AccountedFor(RolledUp(es, [], reportDate), [], e)
  {
    var issue := EntityRef(JiraIssue, "A-1", None);
    var first := Event(0, 0, "x", JiraIssueTransitioned, 0, Actor("", None, None), "", None, [],
                       [EntityRef(JiraProject, "A", None), issue], None, Metadata(false, None, None, 0), Normal);
    var second := first.(id := 1, entities := [EntityRef(JiraProject, "B", None), issue]);
    es := [first, second];
    TransitionKey(first, "A", issue);
    TransitionKey(second, "B", issue);
    assert "A"[0] != "B"[0];
    assert first in es && second in es && !IdentitiesAreKeys(es);
    CommitSetsOverwriteNothing(es, []);
    RollUpPartition(es, [], reportDate);
    e :| e in es && !AccountedFor(RolledUp(es, [], reportDate), [], e);
  }
}
