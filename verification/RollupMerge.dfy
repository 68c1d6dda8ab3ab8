/** What merging commit sets does to the events: which are kept, which are
    displaced by another copy, and exactly when one is lost. */
module RollupMerge {
  import opened Basics
  import opened Activity
  import opened Coalesce
  import opened RollupKeys
  import opened Rollup
  import opened RollupConserve

  predicate IsSet(g: Group) { g.artifact.payload.CommitSet? }

  // ---- absorbing ----

  lemma {:induction false} AbsorbConcat(es: seq<Event>, a: seq<Event>, b: seq<Event>)
    ensures Absorb(Absorb(es, a), b) == Absorb(es, a + b)
    decreases a
  {
    if a == [] {
      assert a + b == b;
    } else {
      assert (a + b)[1..] == a[1..] + b;
      AbsorbConcat(if HasExternalId(es, a[0].externalId) then es else es + [a[0]], a[1..], b);
    }
  }

  lemma SameIdsInBag(a: seq<Event>, b: seq<Event>, externalId: string)
    requires multiset(a) == multiset(b) && HasExternalId(a, externalId)
    ensures HasExternalId(b, externalId)
  {
    var i :| 0 <= i < |a| && a[i].externalId == externalId;
    assert a[i] in multiset(b);
  }

  lemma {:induction false} AbsorbBag(a: seq<Event>, b: seq<Event>, more: seq<Event>)
    requires multiset(a) == multiset(b)
    ensures multiset(Absorb(a, more)) == multiset(Absorb(b, more))
    decreases more
  {
    if more != [] {
      var x := more[0].externalId;
      if HasExternalId(a, x) { SameIdsInBag(a, b, x); }
      if HasExternalId(b, x) { SameIdsInBag(b, a, x); }
      AbsorbBag(if HasExternalId(a, x) then a else a + [more[0]], if HasExternalId(b, x) then b else b + [more[0]],
                more[1..]);
    }
  }

  lemma {:induction false} AbsorbAtMost(es: seq<Event>, more: seq<Event>)
    ensures multiset(Absorb(es, more)) <= multiset(es) + multiset(more)
    ensures es <= Absorb(es, more)
    decreases more
  {
    if more != [] {
      assert more == [more[0]] + more[1..];
      AbsorbAtMost(if HasExternalId(es, more[0].externalId) then es else es + [more[0]], more[1..]);
    }
  }

  lemma IdInPrefix(a: seq<Event>, b: seq<Event>, externalId: string)
    requires a <= b && HasExternalId(a, externalId)
    ensures HasExternalId(b, externalId)
  {
    var i :| 0 <= i < |a| && a[i].externalId == externalId;
    assert b[i] == a[i];
  }

  lemma {:induction false} AbsorbHasIds(es: seq<Event>, more: seq<Event>, i: nat)
    requires i < |more|
    ensures HasExternalId(Absorb(es, more), more[i].externalId)
    decreases more
  {
    var next := if HasExternalId(es, more[0].externalId) then es else es + [more[0]];
    if i == 0 {
      assert more[0] == next[|next| - 1] || HasExternalId(es, more[0].externalId);
      AbsorbAtMost(next, more[1..]);
      IdInPrefix(next, Absorb(next, more[1..]), more[0].externalId);
    } else {
      AbsorbHasIds(next, more[1..], i - 1);
    }
  }

  ghost predicate Distinct(es: seq<Event>) { forall i, j :: 0 <= i < j < |es| ==> es[i] != es[j] }

  lemma DistinctWithoutOne(es: seq<Event>, more: seq<Event>)
    requires Distinct(es + more) && more != []
    ensures Distinct(es + more[1..])
  {
    var (all, less) := (es + more, es + more[1..]);
    forall i, j | 0 <= i < j < |less| ensures less[i] != less[j] {
      assert less[i] == all[if i < |es| then i else i + 1] && less[j] == all[if j < |es| then j else j + 1];
    }
  }

  /** Of what is absorbed, exactly the first event of each new external id is kept. */
  lemma {:induction false} AbsorbKeepsFirsts(es: seq<Event>, more: seq<Event>, i: nat)
    requires Distinct(es + more) && i < |more|
    ensures more[i] in Absorb(es, more) <==> !HasExternalId(es + more[..i], more[i].externalId)
    decreases more
  {
    var known := HasExternalId(es, more[0].externalId);
    var next := if known then es else es + [more[0]];
    if i == 0 {
      AbsorbFirst(es, more);
      assert es + more[..0] == es;
    } else {
      var before := more[1..][..i - 1];
      assert more[..i] == [more[0]] + before;
      if known {
        DistinctWithoutOne(es, more);
        SkipKnown(es, more[0], before, more[i].externalId);
      } else {
        assert next + more[1..] == es + more && next + before == es + more[..i];
      }
      AbsorbKeepsFirsts(next, more[1..], i - 1);
    }
  }

  lemma AbsorbFirst(es: seq<Event>, more: seq<Event>)
    requires Distinct(es + more) && more != []
    ensures more[0] in Absorb(es, more) <==> !HasExternalId(es, more[0].externalId)
  {
    var all := es + more;
    var e := more[0];
    assert all[|es|] == e;
    if HasExternalId(es, e.externalId) {
      assert e !in es by { assert forall k :: 0 <= k < |es| ==> all[k] == es[k]; }
      assert e !in more[1..] by { assert forall k :: 0 <= k < |more[1..]| ==> more[1..][k] == all[|es| + 1 + k]; }
      AbsorbAtMost(es, more[1..]);
      assert multiset(Absorb(es, more[1..]))[e] == 0;
    } else {
      AbsorbAtMost(es + [e], more[1..]);
      assert Absorb(es + [e], more[1..])[|es|] == e;
    }
  }

  lemma SkipKnown(es: seq<Event>, known: Event, rest: seq<Event>, externalId: string)
    requires HasExternalId(es, known.externalId)
    ensures HasExternalId(es + rest, externalId) <==> HasExternalId(es + ([known] + rest), externalId)
  {
    var (short, long) := (es + rest, es + ([known] + rest));
    if HasExternalId(short, externalId) {
      var i :| 0 <= i < |short| && short[i].externalId == externalId;
      assert long[if i < |es| then i else i + 1] == short[i];
    }
    if HasExternalId(long, externalId) {
      var i :| 0 <= i < |long| && long[i].externalId == externalId;
      if i == |es| {
        IdInPrefix(es, short, externalId);
      } else {
        assert short[if i < |es| then i else i - 1] == long[i];
      }
    }
  }

  lemma AbsorbedKept(first: seq<Event>, more: seq<Event>, kept: seq<Event>, p: nat)
    requires multiset(kept) == multiset(Absorb(first, more)) && Distinct(first + more) && p < |first + more|
    ensures var e := (first + more)[p];
      e in kept <==> p < |first| || !HasExternalId((first + more)[..p], e.externalId)
  {
    var e := (first + more)[p];
    assert e in kept <==> e in multiset(kept);
    assert e in Absorb(first, more) <==> e in multiset(kept);
    if p < |first| {
      AbsorbAtMost(first, more);
      assert Absorb(first, more)[p] == e;
    } else {
      AbsorbKeepsFirsts(first, more, p - |first|);
      assert first + more[..p - |first|] == (first + more)[..p];
    }
  }

  lemma AbsorbedIdKept(first: seq<Event>, more: seq<Event>, kept: seq<Event>, e: Event)
    requires multiset(kept) == multiset(Absorb(first, more)) && e in first + more
    ensures HasExternalId(kept, e.externalId)
  {
    var p :| 0 <= p < |first + more| && (first + more)[p] == e;
    if p < |first| {
      AbsorbAtMost(first, more);
      assert Absorb(first, more)[p] == e;
    } else {
      AbsorbHasIds(first, more, p - |first|);
    }
    SameIdsInBag(Absorb(first, more), kept, e.externalId);
  }

  // ---- folding the commit sets of one key ----

  function Pool(gs: seq<Group>): seq<Event> {
    if gs == [] then [] else Pool(gs[..|gs| - 1]) + gs[|gs| - 1].events
  }

  /** Merging commit sets one by one, sorting each time, keeps the first's
      artifact and the events of one pass over all the others. */
  lemma {:induction false} FoldIsOneAbsorb(gs: seq<Group>)
    requires gs != [] && forall g :: g in gs ==> IsSet(g)
    ensures Fold(MergedGroup, gs).artifact == gs[0].artifact
    ensures multiset(Fold(MergedGroup, gs).events) == multiset(Absorb(gs[0].events, Pool(gs[1..])))
  {
    if |gs| > 1 {
      var front := gs[..|gs| - 1];
      var (held, last) := (Fold(MergedGroup, front), gs[|gs| - 1].events);
      assert gs[0] in gs && gs[|gs| - 1] in gs;
      FoldIsOneAbsorb(front);
      AbsorbOneMore(held.events, gs[0].events, Pool(front[1..]), last);
      assert gs[1..][..|gs[1..]| - 1] == front[1..];
      assert Pool(gs[1..]) == Pool(front[1..]) + last;
    }
  }

  lemma AbsorbOneMore(held: seq<Event>, first: seq<Event>, pool: seq<Event>, last: seq<Event>)
    requires multiset(held) == multiset(Absorb(first, pool))
    ensures multiset(SortedEvents(Absorb(held, last))) == multiset(Absorb(first, pool + last))
  {
    SortKeepsElements(EventLe, Absorb(held, last));
    AbsorbBag(held, Absorb(first, pool), last);
    AbsorbConcat(first, pool, last);
  }

  lemma {:induction false} PoolIsAllEvents(gs: seq<Group>)
    ensures multiset(Pool(gs)) == EventsOf(gs)
  {
    if gs != [] {
      var (front, last) := (gs[..|gs| - 1], gs[|gs| - 1]);
      PoolIsAllEvents(front);
      assert gs == front + [last];
      EventsOfConcat(front, [last]);
      assert [last][1..] == [];
    }
  }

  lemma {:induction false} FoldTakesLast(gs: seq<Group>)
    requires gs != [] && forall g :: g in gs ==> !IsSet(g)
    ensures Fold(MergedGroup, gs) == gs[|gs| - 1]
  {
    if |gs| > 1 {
      assert gs[|gs| - 2] in gs;
      FoldTakesLast(gs[..|gs| - 1]);
    }
  }

  /** Groups that share a key. */
  ghost predicate OneKey(gs: seq<Group>, k: SetKey) { gs != [] && forall g :: g in gs ==> SetKeyOf(g) == Some(k) }

  lemma FoldAtMost(gs: seq<Group>, k: SetKey)
    requires OneKey(gs, k)
    ensures multiset(Fold(MergedGroup, gs).events) <= EventsOf(gs)
  {
    if k.RepoSet? {
      FoldIsOneAbsorb(gs);
      PoolIsAllEvents(gs[1..]);
      AbsorbAtMost(gs[0].events, Pool(gs[1..]));
    } else {
      FoldTakesLast(gs);
      var (front, last) := (gs[..|gs| - 1], gs[|gs| - 1]);
      assert gs == front + [last];
      EventsOfConcat(front, [last]);
      assert EventsOf([last]) == multiset(last.events) + EventsOf([last][1..]);
    }
  }

  // ---- the whole merge ----

  lemma {:induction false} EventsSplit(gs: seq<Group>, k: SetKey)
    ensures EventsOf(With(SetKeyOf, gs, k)) + EventsOf(Without(SetKeyOf, gs, k)) == EventsOf(gs)
  {
    if gs != [] { EventsSplit(gs[1..], k); }
  }

  /** No event is duplicated: each is out at most as often as it went in. */
  lemma {:induction false} MergeAtMost(gs: seq<Group>)
    ensures EventsOf(MergedSets(gs)) <= EventsOf(gs)
    decreases |gs|
  {
    if gs != [] {
      var k := SetKeyOf(gs[0]).value;
      EventsSplit(gs, k);
      WithMembers(SetKeyOf, gs, k);
      FoldAtMost(With(SetKeyOf, gs, k), k);
      MergeAtMost(Rest(SetKeyOf, gs));
    }
  }

  lemma {:induction false} EventsOfMembers(gs: seq<Group>, e: Event)
    ensures e in EventsOf(gs) <==> exists i :: 0 <= i < |gs| && e in gs[i].events
  {
    if gs != [] {
      EventsOfMembers(gs[1..], e);
      assert forall i :: 0 < i < |gs| ==> gs[i] == gs[1..][i - 1];
      assert forall i :: 0 <= i < |gs[1..]| ==> gs[1..][i] == gs[i + 1];
    }
  }

  lemma CountInTail(gs: seq<Group>, k: nat, e: Event)
    requires 0 < k < |gs| && e in gs[k].events
    ensures EventsOf(gs)[e] > multiset(gs[0].events)[e]
  {
    EventsOfMembers(gs[1..], e);
    assert gs[1..][k - 1] == gs[k];
  }

  /** An event counted once is in one group only. */
  lemma {:induction false} InOneGroup(gs: seq<Group>, i: nat, j: nat, e: Event)
    requires EventsOf(gs)[e] <= 1 && i < |gs| && j < |gs| && e in gs[i].events && e in gs[j].events
    ensures i == j
  {
    if i > 0 && j > 0 {
      InOneGroup(gs[1..], i - 1, j - 1, e);
    } else if i > 0 {
      CountInTail(gs, i, e);
    } else if j > 0 {
      CountInTail(gs, j, e);
    }
  }

  lemma MergeKeepsKey()
    ensures KeepsKey(SetKeyOf, MergedGroup)
  {
  }

  /** The merged group of a key, and the groups it comes from. */
  lemma MergedAt(gs: seq<Group>, k: SetKey)
    requires With(SetKeyOf, gs, k) != []
    ensures OneKey(With(SetKeyOf, gs, k), k)
    ensures PlaceOf(SetKeyOf, gs, k) < |MergedSets(gs)|
    ensures MergedSets(gs)[PlaceOf(SetKeyOf, gs, k)] == Fold(MergedGroup, With(SetKeyOf, gs, k))
    ensures SetKeyOf(Fold(MergedGroup, With(SetKeyOf, gs, k))) == Some(k)
  {
    WithMembers(SetKeyOf, gs, k);
    KeyHasOnePlace(SetKeyOf, MergedGroup, gs, k);
    MergeKeepsKey();
    FoldHasKey(SetKeyOf, MergedGroup, With(SetKeyOf, gs, k), k);
  }

  lemma HasItsKey(gs: seq<Group>, j: nat)
    requires j < |gs|
    ensures gs[j] in With(SetKeyOf, gs, SetKeyOf(gs[j]).value)
  {
    WithMembers(SetKeyOf, gs, SetKeyOf(gs[j]).value);
  }

  /** Every event of a merged group comes from a group of the same key. */
  lemma MergedEventSource(gs: seq<Group>, i: nat, e: Event) returns (n: nat)
    requires i < |MergedSets(gs)| && e in MergedSets(gs)[i].events
    ensures n < |gs| && e in gs[n].events && SetKeyOf(gs[n]) == SetKeyOf(MergedSets(gs)[i])
    ensures With(SetKeyOf, gs, SetKeyOf(gs[n]).value) != []
    ensures MergedSets(gs)[i] == Fold(MergedGroup, With(SetKeyOf, gs, SetKeyOf(gs[n]).value))
  {
    MergeKeepsKey();
    var k := SetKeyOf(MergedSets(gs)[i]).value;
    KeyedIsAtItsPlace(SetKeyOf, MergedGroup, gs, i);
    MergedAt(gs, k);
    var same := With(SetKeyOf, gs, k);
    FoldAtMost(same, k);
    assert e in multiset(MergedSets(gs)[i].events);
    EventsOfMembers(same, e);
    var m :| 0 <= m < |same| && e in same[m].events;
    WithMembers(SetKeyOf, gs, k);
    assert same[m] in same;
    n :| 0 <= n < |gs| && gs[n] == same[m];
  }

  /** An event of a group can only be in the merged group of the same key. */
  lemma FateIsInItsGroup(gs: seq<Group>, j: nat, e: Event)
    requires EventsOf(gs)[e] == 1 && j < |gs| && e in gs[j].events
    ensures With(SetKeyOf, gs, SetKeyOf(gs[j]).value) != []
    ensures e in EventsOf(MergedSets(gs)) <==> e in Fold(MergedGroup, With(SetKeyOf, gs, SetKeyOf(gs[j]).value)).events
  {
    HasItsKey(gs, j);
    MergedAt(gs, SetKeyOf(gs[j]).value);
    EventsOfMembers(MergedSets(gs), e);
    if e in EventsOf(MergedSets(gs)) {
      var i :| 0 <= i < |MergedSets(gs)| && e in MergedSets(gs)[i].events;
      var n := MergedEventSource(gs, i, e);
      InOneGroup(gs, n, j, e);
    }
  }

  /** Of the events of the commit sets of one repository and day, in the order
      they are met, exactly those of the first set and those whose external id
      was not met before stay. */
  lemma CommitSetEventKept(gs: seq<Group>, j: nat, e: Event, same: seq<Group>, p: nat)
    requires EventsOf(gs)[e] == 1 && j < |gs| && e in gs[j].events && IsSet(gs[j])
    requires same == With(SetKeyOf, gs, SetKeyOf(gs[j]).value) && Distinct(Pool(same))
    requires p < |Pool(same)| && Pool(same)[p] == e
    ensures same != []
    ensures e in EventsOf(MergedSets(gs)) <==> p < |same[0].events| || !HasExternalId(Pool(same)[..p], e.externalId)
  {
    FateIsInItsGroup(gs, j, e);
    MergedAt(gs, SetKeyOf(gs[j]).value);
    PooledEventKept(same, e, p);
  }

  lemma PooledEventKept(same: seq<Group>, e: Event, p: nat)
    requires same != [] && Distinct(Pool(same)) && p < |Pool(same)| && Pool(same)[p] == e
    requires forall g :: g in same ==> IsSet(g)
    ensures e in Fold(MergedGroup, same).events <==>
      p < |same[0].events| || !HasExternalId(Pool(same)[..p], e.externalId)
  {
    FoldIsOneAbsorb(same);
    PoolFromFirst(same);
    AbsorbedKept(same[0].events, Pool(same[1..]), Fold(MergedGroup, same).events, p);
  }

  lemma {:induction false} PoolFromFirst(gs: seq<Group>)
    requires gs != []
    ensures Pool(gs) == gs[0].events + Pool(gs[1..])
  {
    var (front, last) := (gs[..|gs| - 1], gs[|gs| - 1].events);
    assert Pool(gs) == Pool(front) + last;
    if |gs| == 1 {
      assert front == [] && gs[1..] == [];
    } else {
      PoolFromFirst(front);
      PoolSnoc(gs[1..]);
      assert front[1..] == gs[1..][..|gs[1..]| - 1];
    }
  }

  lemma PoolSnoc(gs: seq<Group>)
    requires gs != []
    ensures Pool(gs) == Pool(gs[..|gs| - 1]) + gs[|gs| - 1].events
  {
  }

  lemma PooledIdKept(same: seq<Group>, e: Event)
    requires same != [] && e in EventsOf(same)
    requires forall g :: g in same ==> IsSet(g)
    ensures HasExternalId(Fold(MergedGroup, same).events, e.externalId)
  {
    FoldIsOneAbsorb(same);
    AbsorbedIdKept(same[0].events, Pool(same[1..]), Fold(MergedGroup, same).events, e) by {
      PoolFromFirst(same);
      PoolIsAllEvents(same);
      assert e in multiset(Pool(same));
    }
  }

  /** What a commit set loses is still there under its external id. */
  lemma CommitSetEventAccounted(gs: seq<Group>, j: nat, e: Event)
    requires j < |gs| && e in gs[j].events && IsSet(gs[j])
    ensures exists o :: o in MergedSets(gs) && SetKeyOf(o) == SetKeyOf(gs[j]) && HasExternalId(o.events, e.externalId)
  {
    var k := SetKeyOf(gs[j]).value;
    var same := With(SetKeyOf, gs, k);
    HasItsKey(gs, j);
    MergedAt(gs, k);
    EventsOfMembers(same, e);
    var n :| 0 <= n < |same| && same[n] == gs[j];
    PooledIdKept(same, e);
    assert MergedSets(gs)[PlaceOf(SetKeyOf, gs, k)] in MergedSets(gs);
  }

  lemma {:induction false} LastWith(gs: seq<Group>, j: nat)
    requires j < |gs|
    ensures With(SetKeyOf, gs, SetKeyOf(gs[j]).value) != []
    ensures (forall i :: j < i < |gs| ==> SetKeyOf(gs[i]) != SetKeyOf(gs[j])) ==>
      var same := With(SetKeyOf, gs, SetKeyOf(gs[j]).value); same[|same| - 1] == gs[j]
  {
    var k := SetKeyOf(gs[j]).value;
    if j > 0 {
      LastWith(gs[1..], j - 1);
      assert forall i :: 0 < i < |gs| ==> gs[i] == gs[1..][i - 1];
      assert forall i :: j - 1 < i < |gs[1..]| ==> gs[1..][i] == gs[i + 1];
    } else if forall i :: j < i < |gs| ==> SetKeyOf(gs[i]) != SetKeyOf(gs[j]) {
      WithoutAbsent(SetKeyOf, gs[1..], k);
    }
  }

  lemma {:induction false} LaterIsLast(gs: seq<Group>, k: SetKey) returns (n: nat)
    requires With(SetKeyOf, gs, k) != []
    ensures n < |gs| && gs[n] == With(SetKeyOf, gs, k)[|With(SetKeyOf, gs, k)| - 1]
    ensures forall i :: n < i < |gs| ==> SetKeyOf(gs[i]) != Some(k)
  {
    if With(SetKeyOf, gs[1..], k) != [] {
      n := LaterIsLast(gs[1..], k);
      assert forall i :: n + 1 < i < |gs| ==> gs[i] == gs[1..][i - 1];
      n := n + 1;
    } else {
      n := 0;
      WithMembers(SetKeyOf, gs[1..], k);
      assert forall i :: 0 < i < |gs| ==> gs[i] == gs[1..][i - 1] && gs[i] in gs[1..];
    }
  }

  /** An event of any other group is kept exactly when no later group has the
      same artifact id. */
  lemma AloneEventKept(gs: seq<Group>, j: nat, e: Event)
    requires EventsOf(gs)[e] == 1 && j < |gs| && e in gs[j].events && !IsSet(gs[j])
    ensures e in EventsOf(MergedSets(gs)) <==>
      forall i :: j < i < |gs| && !IsSet(gs[i]) ==> gs[i].artifact.id != gs[j].artifact.id
  {
    FateIsInItsGroup(gs, j, e);
    LastOfKeyWins(gs, j, e);
    assert forall i :: 0 <= i < |gs| ==>
      (SetKeyOf(gs[i]) == SetKeyOf(gs[j]) <==> !IsSet(gs[i]) && gs[i].artifact.id == gs[j].artifact.id);
  }

  lemma LastOfKeyWins(gs: seq<Group>, j: nat, e: Event)
    requires EventsOf(gs)[e] == 1 && j < |gs| && e in gs[j].events && !IsSet(gs[j])
    requires With(SetKeyOf, gs, SetKeyOf(gs[j]).value) != []
    ensures e in Fold(MergedGroup, With(SetKeyOf, gs, SetKeyOf(gs[j]).value)).events <==>
      forall i :: j < i < |gs| ==> SetKeyOf(gs[i]) != SetKeyOf(gs[j])
  {
    var k := SetKeyOf(gs[j]).value;
    MergedAt(gs, k);
    FoldTakesLast(With(SetKeyOf, gs, k));
    LastWith(gs, j);
    var n := LaterIsLast(gs, k);
    if e in gs[n].events { InOneGroup(gs, n, j, e); }
  }

  // ---- the recorded event ids ----

  /** The ids an artifact records are those of the given events. */
  ghost predicate Records(a: Artifact, es: seq<Event>) {
    forall id :: id in a.payload.eventIds <==> exists e :: e in es && e.id == id
  }

  lemma {:induction false} AbsorbsNothing(es: seq<Event>, more: seq<Event>)
    requires forall e :: e in more ==> HasExternalId(es, e.externalId)
    ensures Absorb(es, more) == es
    decreases more
  {
    if more != [] {
      assert more[0] in more;
      AbsorbsNothing(es, more[1..]);
    }
  }

  lemma {:induction false} AbsorbsSomething(es: seq<Event>, more: seq<Event>, e: Event) returns (x: Event)
    requires e in more && !HasExternalId(es, e.externalId)
    ensures x in more && x in Absorb(es, more)
    decreases more
  {
    if HasExternalId(es, more[0].externalId) {
      x := AbsorbsSomething(es, more[1..], e);
    } else {
      x := more[0];
      AbsorbAtMost(es + [x], more[1..]);
      assert Absorb(es, more)[|es|] == x;
    }
  }

  lemma RecordsSameBag(a: Artifact, es: seq<Event>, fs: seq<Event>)
    requires multiset(es) == multiset(fs)
    ensures Records(a, es) <==> Records(a, fs)
  {
    assert forall e :: e in es <==> e in multiset(es);
    assert forall e :: e in fs <==> e in multiset(fs);
    assert forall e :: e in es <==> e in fs;
  }

  lemma RecordsAbsorbedExactly(a: Artifact, first: seq<Event>, more: seq<Event>)
    requires Records(a, first) && forall e, f :: e in first && f in more ==> e.id != f.id
    ensures Records(a, Absorb(first, more)) <==> forall e :: e in more ==> HasExternalId(first, e.externalId)
  {
    if e :| e in more && !HasExternalId(first, e.externalId) {
      var x := AbsorbsSomething(first, more, e);
      assert x.id !in a.payload.eventIds;
    } else {
      AbsorbsNothing(first, more);
    }
  }

  /** A merged commit set keeps the artifact of its first set. The event ids recorded
      there still list its events exactly when no later set of the same repository
      and day brought a new external id. */
  lemma MergedSetRecordsExactly(gs: seq<Group>, k: SetKey, same: seq<Group>)
    requires k.RepoSet? && same == With(SetKeyOf, gs, k) && same != []
    requires Records(same[0].artifact, same[0].events)
    requires forall e, f :: e in same[0].events && f in Pool(same[1..]) ==> e.id != f.id
    ensures PlaceOf(SetKeyOf, gs, k) < |MergedSets(gs)|
    ensures var merged := MergedSets(gs)[PlaceOf(SetKeyOf, gs, k)];
      && merged.artifact == same[0].artifact
      && (Records(merged.artifact, merged.events) <==>
            forall e :: e in Pool(same[1..]) ==> HasExternalId(same[0].events, e.externalId))
  {
    MergedAt(gs, k);
    FoldIsOneAbsorb(same);
    var (first, more) := (same[0].events, Pool(same[1..]));
    RecordsSameBag(same[0].artifact, Fold(MergedGroup, same).events, Absorb(first, more));
    RecordsAbsorbedExactly(same[0].artifact, first, more);
  }
}
