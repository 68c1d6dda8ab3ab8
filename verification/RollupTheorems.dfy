/** The promises of the rollup: nothing is counted twice, what is kept and what
    is lost, independence of the order of events, and a total final order. */
module RollupTheorems {
  import opened Basics
  import opened Activity
  import opened Coalesce
  import opened RollupKeys
  import opened Rollup
  import opened RollupConserve
  import opened RollupMerge

  // ---- sorting groups ----

  lemma {:induction false} InsertKeepsEvents(g: Group, gs: seq<Group>)
    ensures EventsOf(InsertBy(GroupLe, g, gs)) == multiset(g.events) + EventsOf(gs)
  {
    if gs != [] {
      if !GroupLe(g, gs[0]) { InsertKeepsEvents(g, gs[1..]); }
    }
  }

  lemma {:induction false} SortKeepsEvents(gs: seq<Group>)
    ensures EventsOf(SortBy(GroupLe, gs)) == EventsOf(gs)
  {
    if gs != [] {
      SortKeepsEvents(gs[1..]);
      InsertKeepsEvents(gs[0], SortBy(GroupLe, gs[1..]));
    }
  }

  // ---- conservation ----

  /** `o` is the commit set of the repository and day of a group that had `e`,
      and holds an event of the same external id. */
  ghost predicate StandsIn(o: Group, raw: seq<Group>, e: Event) {
    IsSet(o) && HasExternalId(o.events, e.externalId)
    && exists j :: 0 <= j < |raw| && e in raw[j].events && SetKeyOf(raw[j]) == SetKeyOf(o)
  }

  ghost predicate Accounted(out: seq<Group>, raw: seq<Group>, e: Event) {
    e in EventsOf(out) || exists o :: o in out && StandsIn(o, raw, e)
  }

  /** No group outside the commit sets is overwritten while it holds events. */
  ghost predicate NoIdReuse(raw: seq<Group>) {
    forall i, j ::
      0 <= i < j < |raw| && !IsSet(raw[i]) && !IsSet(raw[j]) && raw[i].artifact.id == raw[j].artifact.id ==>
      raw[i].events == []
  }

  lemma OnceEach(es: seq<Event>, e: Event)
    requires DistinctIds(es) && e in es
    ensures multiset(es)[e] == 1
  {
    BagOfDistinct(es);
  }

  lemma AccountedInMerge(raw: seq<Group>, j: nat, e: Event)
    requires EventsOf(raw)[e] == 1 && j < |raw| && e in raw[j].events
    ensures Accounted(MergedSets(raw), raw, e) <==>
      IsSet(raw[j]) || forall i :: j < i < |raw| && !IsSet(raw[i]) ==> raw[i].artifact.id != raw[j].artifact.id
  {
    var out := MergedSets(raw);
    if IsSet(raw[j]) {
      CommitSetEventAccounted(raw, j, e);
      var o :| o in out && SetKeyOf(o) == SetKeyOf(raw[j]) && HasExternalId(o.events, e.externalId);
      assert StandsIn(o, raw, e);
    } else {
      AloneEventKept(raw, j, e);
      forall o | o in out && StandsIn(o, raw, e) ensures false {
        var i :| 0 <= i < |raw| && e in raw[i].events && SetKeyOf(raw[i]) == SetKeyOf(o);
        InOneGroup(raw, i, j, e);
      }
    }
  }

  lemma AccountedAfterSort(gs: seq<Group>, raw: seq<Group>, e: Event)
    ensures Accounted(SortBy(GroupLe, gs), raw, e) <==> Accounted(gs, raw, e)
  {
    SortKeepsEvents(gs);
    SortMembers(GroupLe, gs);
  }

  /** The rollup of distinct events repeats none of them; and each of them is
      there, or displaced by an event of its external id in the commit set of
      its repository and day, for all events exactly when no other group is
      followed by one with the same artifact id. */
  lemma RawPartition(es: seq<Event>, artifacts: seq<Artifact>, reportDate: Day)
    requires DistinctIds(es)
    ensures EventsOf(RolledUp(es, artifacts, reportDate)) <= multiset(es)
    ensures var raw := RawGroups(es, artifacts, reportDate);
      (forall e :: e in es ==> Accounted(RolledUp(es, artifacts, reportDate), raw, e)) <==> NoIdReuse(raw)
  {
    var raw := RawGroups(es, artifacts, reportDate);
    var out := RolledUp(es, artifacts, reportDate);
    RawGroupsPartition(es, artifacts, reportDate);
    MergeAtMost(raw);
    SortKeepsEvents(MergedSets(raw));
    forall e | e in es ensures NoIdReuse(raw) ==> Accounted(out, raw, e) {
      EventFate(es, raw, e);
      AccountedAfterSort(MergedSets(raw), raw, e);
    }
    if forall e :: e in es ==> Accounted(out, raw, e) {
      forall i, j | 0 <= i < j < |raw| && !IsSet(raw[i]) && !IsSet(raw[j]) && raw[i].artifact.id == raw[j].artifact.id
        ensures raw[i].events == []
      {
        if raw[i].events != [] { OverwrittenIsLost(es, raw, i, j); }
      }
    }
  }

  lemma EventFate(es: seq<Event>, raw: seq<Group>, e: Event)
    requires DistinctIds(es) && e in es && EventsOf(raw) == multiset(es)
    ensures NoIdReuse(raw) ==> Accounted(MergedSets(raw), raw, e)
  {
    OnceEach(es, e);
    EventsOfMembers(raw, e);
    var j :| 0 <= j < |raw| && e in raw[j].events;
    AccountedInMerge(raw, j, e);
  }

  lemma OverwrittenIsLost(es: seq<Event>, raw: seq<Group>, i: nat, j: nat)
    requires DistinctIds(es) && EventsOf(raw) == multiset(es) && i < j < |raw| && raw[i].events != []
    requires !IsSet(raw[i]) && !IsSet(raw[j]) && raw[i].artifact.id == raw[j].artifact.id
    ensures raw[i].events[0] in es && !Accounted(SortBy(GroupLe, MergedSets(raw)), raw, raw[i].events[0])
  {
    var e := raw[i].events[0];
    EventsOfMembers(raw, e);
    assert e in multiset(es);
    OnceEach(es, e);
    AccountedInMerge(raw, i, e);
    AccountedAfterSort(MergedSets(raw), raw, e);
  }

  // ---- the order of the input ----

  lemma CountTwice(s: seq<Event>, i: nat, j: nat)
    requires i < j < |s| && s[i] == s[j]
    ensures multiset(s)[s[i]] >= 2
  {
    assert s == s[..j] + [s[j]] + s[j + 1..];
    assert s[..j][i] == s[i];
  }

  lemma PermutationKeepsIndex(es: seq<Event>, fs: seq<Event>)
    requires DistinctIds(es) && multiset(es) == multiset(fs)
    ensures IndexById(es) == IndexById(fs)
  {
    assert forall e :: e in es <==> e in multiset(es);
    assert forall e :: e in fs <==> e in multiset(fs);
    forall i, j | 0 <= i < j < |fs| ensures fs[i].id != fs[j].id {
      if fs[i].id == fs[j].id {
        assert fs[i] in multiset(fs) && fs[j] in multiset(fs);
        assert fs[i] in es && fs[j] in es;
        OnceEach(es, fs[i]);
        CountTwice(fs, i, j);
      }
    }
    IndexHolds(es);
    IndexHolds(fs);
    IndexKeys(es);
    IndexKeys(fs);
  }

  /** The rollup does not depend on the order in which events arrive. */
  lemma RollUpIgnoresOrder(es: seq<Event>, fs: seq<Event>, artifacts: seq<Artifact>, reportDate: Day)
    requires DistinctIds(es) && multiset(es) == multiset(fs)
    ensures RolledUp(es, artifacts, reportDate) == RolledUp(fs, artifacts, reportDate)
  {
    PermutationKeepsIndex(es, fs);
  }

  // ---- artifacts through the merge ----

  lemma {:induction false} FoldKeepsAnArtifact(gs: seq<Group>) returns (i: nat)
    requires gs != []
    ensures i < |gs| && Fold(MergedGroup, gs).artifact == gs[i].artifact
  {
    if |gs| == 1 {
      i := 0;
    } else {
      i := FoldKeepsAnArtifact(gs[..|gs| - 1]);
      if !IsSet(Fold(MergedGroup, gs[..|gs| - 1])) { i := |gs| - 1; }
    }
  }

  /** Every merged group keeps the artifact of a group it was merged from. */
  lemma MergedArtifactSource(gs: seq<Group>, i: nat) returns (n: nat)
    requires i < |MergedSets(gs)|
    ensures n < |gs| && MergedSets(gs)[i].artifact == gs[n].artifact && SetKeyOf(gs[n]) == SetKeyOf(MergedSets(gs)[i])
  {
    MergeKeepsKey();
    var k := SetKeyOf(MergedSets(gs)[i]).value;
    KeyedIsAtItsPlace(SetKeyOf, MergedGroup, gs, i);
    MergedAt(gs, k);
    var same := With(SetKeyOf, gs, k);
    var m := FoldKeepsAnArtifact(same);
    assert same[m] in same;
    WithMembers(SetKeyOf, gs, k);
    n :| 0 <= n < |gs| && gs[n] == same[m];
  }

  /** Groups of the same artifact id are merged together. */
  ghost predicate IdTellsKey(raw: seq<Group>) {
    forall i, j :: 0 <= i < j < |raw| && raw[i].artifact.id == raw[j].artifact.id ==>
      SetKeyOf(raw[i]) == SetKeyOf(raw[j])
  }

  /** Merged groups have distinct ids, so their order is strict: no two tie. */
  lemma MergedIdsDiffer(raw: seq<Group>, i: nat, j: nat)
    requires IdTellsKey(raw) && i < j < |MergedSets(raw)|
    ensures MergedSets(raw)[i].artifact.id != MergedSets(raw)[j].artifact.id
  {
    MergeKeepsKey();
    CoalescedHasDistinctKeys(SetKeyOf, MergedGroup, raw);
    var m := MergedArtifactSource(raw, i);
    var n := MergedArtifactSource(raw, j);
  }
}
