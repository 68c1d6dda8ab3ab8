/** The two in-place passes that set an event's parent: the merge request that
    triggered a Jira transition, and the merge request a commit rolled into. */
module Annotate {
  import opened Basics
  import opened Activity

  const MR_TRIGGER_WINDOW: int := 24 * 3_600_000_000_000

  predicate IsMrLike(kind: ActivityKind) {
    kind.MrOpened? || kind.MrMerged?
    || kind.GitHubPullRequestOpened? || kind.GitHubPullRequestMerged? || kind.GitHubPullRequestClosed?
  }

  /** The event may have triggered a transition of `key` at `at`. */
  predicate Candidate(e: Event, key: string, at: int) {
    && IsMrLike(e.kind)
    && (exists k :: 0 <= k < |e.entities| && e.entities[k].kind == JiraIssue && e.entities[k].externalId == key)
    && at - MR_TRIGGER_WINDOW <= e.occurredAt <= at
  }

  predicate Earlier(a: Event, b: Event) {
    a.occurredAt < b.occurredAt || (a.occurredAt == b.occurredAt && a.id < b.id)
  }

  /** The first of the candidates that no candidate is earlier than. */
  function Trigger(events: seq<Event>, key: string, at: int): Option<Event> {
    if events == [] then None
    else
      var best := Trigger(events[..|events| - 1], key, at);
      var last := events[|events| - 1];
      if Candidate(last, key, at) && (best.None? || Earlier(last, best.value)) then Some(last) else best
  }

  function WithTrigger(events: seq<Event>, e: Event): Event {
    var issue := FirstEntity(e.entities, JiraIssue);
    if e.kind == JiraIssueTransitioned && issue.Some?
    then
      var trigger := Trigger(events, issue.value.externalId, e.occurredAt);
      if trigger.Some? then e.(parent := Some(trigger.value.externalId)) else e
    else e
  }

  /** The trigger is a candidate no other candidate is earlier than, and there
      is one exactly when there is a candidate. */
  lemma {:induction false} TriggerIsEarliest(events: seq<Event>, key: string, at: int)
    ensures var t := Trigger(events, key, at);
      && (t.Some? <==> exists e :: e in events && Candidate(e, key, at))
      && (t.Some? ==> t.value in events && Candidate(t.value, key, at)
                      && forall e :: e in events && Candidate(e, key, at) ==> !Earlier(e, t.value))
  {
    if events != [] {
      var (front, last) := (events[..|events| - 1], events[|events| - 1]);
      TriggerIsEarliest(front, key, at);
      assert events == front + [last] && forall e :: e in events <==> e in front || e == last;
    }
  }

  /** With distinct ids, which parent a transition gets depends on the events
      and not on their order. */
  lemma TriggerIgnoresOrder(events: seq<Event>, others: seq<Event>, e: Event)
    requires forall x :: x in events <==> x in others
    requires forall x, y :: x in events && y in events && x.id == y.id ==> x == y
    ensures WithTrigger(events, e) == WithTrigger(others, e)
  {
    var issue := FirstEntity(e.entities, JiraIssue);
    if issue.Some? {
      TriggerIsEarliest(events, issue.value.externalId, e.occurredAt);
      TriggerIsEarliest(others, issue.value.externalId, e.occurredAt);
    }
  }

  // ---- the index the pass builds ----

  function PoolOf(pools: map<string, seq<Event>>, key: string): seq<Event> {
    if key in pools then pools[key] else []
  }

  /** The index holds, under each key, the pool of the key. */
  ghost predicate Pools(pools: map<string, seq<Event>>, events: seq<Event>) {
    forall key :: PoolOf(pools, key) == Pool(events, key)
  }

  /** One entry per merge request and per mention of the key in its entities. */
  function Pool(events: seq<Event>, key: string): seq<Event> {
    if events == [] then []
    else
      var last := events[|events| - 1];
      Pool(events[..|events| - 1], key) + (if IsMrLike(last.kind) then Mentions(last, last.entities, key) else [])
  }

  function Mentions(e: Event, entities: seq<EntityRef>, key: string): seq<Event> {
    if entities == [] then []
    else
      var last := entities[|entities| - 1];
      Mentions(e, entities[..|entities| - 1], key)
      + (if last.kind == JiraIssue && last.externalId == key then [e] else [])
  }

  method BuildIssueToMrCandidates(events: seq<Event>) returns (pools: map<string, seq<Event>>)
    ensures Pools(pools, events)
  {
    pools := map[];
    for i := 0 to |events|
      invariant Pools(pools, events[..i])
    {
      assert events[..i + 1][..i] == events[..i];
      if IsMrLike(events[i].kind) { pools := PushMentions(pools, events[i]); }
    }
    assert events[..|events|] == events;
  }

  ghost predicate Pushed(pools: map<string, seq<Event>>, event: Event, entities: seq<EntityRef>,
                         grown: map<string, seq<Event>>) {
    forall key :: PoolOf(grown, key) == PoolOf(pools, key) + Mentions(event, entities, key)
  }

  method PushMentions(pools: map<string, seq<Event>>, event: Event) returns (grown: map<string, seq<Event>>)
    ensures Pushed(pools, event, event.entities, grown)
  {
    grown := pools;
    for k := 0 to |event.entities|
      invariant Pushed(pools, event, event.entities[..k], grown)
    {
      PushOne(pools, event, k, grown);
      var entity := event.entities[k];
      if entity.kind == JiraIssue {
        grown := grown[entity.externalId := PoolOf(grown, entity.externalId) + [event]];
      }
    }
    assert event.entities[..|event.entities|] == event.entities;
  }

  lemma PushOne(pools: map<string, seq<Event>>, event: Event, k: nat, before: map<string, seq<Event>>)
    requires k < |event.entities| && Pushed(pools, event, event.entities[..k], before)
    ensures var entity := event.entities[k];
      Pushed(pools, event, event.entities[..k + 1],
             if entity.kind == JiraIssue
             then before[entity.externalId := PoolOf(before, entity.externalId) + [event]]
             else before)
  {
    var entity := event.entities[k];
    var grown := if entity.kind == JiraIssue
      then before[entity.externalId := PoolOf(before, entity.externalId) + [event]]
      else before;
    forall key ensures PoolOf(grown, key) == PoolOf(pools, key) + Mentions(event, event.entities[..k + 1], key) {
      assert PoolOf(before, key) == PoolOf(pools, key) + Mentions(event, event.entities[..k], key);
      MentionsGrow(event, k, key);
      Regroup(PoolOf(pools, key), Mentions(event, event.entities[..k], key),
              if PoolOf(grown, key) == PoolOf(before, key) then [] else [event]);
    }
  }

  lemma Regroup(a: seq<Event>, b: seq<Event>, c: seq<Event>)
    ensures a + b + c == a + (b + c)
  {
  }

  lemma MentionsGrow(e: Event, k: nat, key: string)
    requires k < |e.entities|
    ensures Mentions(e, e.entities[..k + 1], key) == Mentions(e, e.entities[..k], key)
      + if e.entities[k].kind == JiraIssue && e.entities[k].externalId == key then [e] else []
  {
    assert e.entities[..k + 1][..k] == e.entities[..k];
  }

  /** The earliest of a pool inside the window, the first of equals. */
  function Winner(pool: seq<Event>, at: int): Option<Event> {
    if pool == [] then None
    else
      var best := Winner(pool[..|pool| - 1], at);
      var last := pool[|pool| - 1];
      if at - MR_TRIGGER_WINDOW <= last.occurredAt <= at && (best.None? || Earlier(last, best.value)) then Some(last)
        else best
  }

  method MinInWindow(pool: seq<Event>, at: int) returns (best: Option<Event>)
    ensures best == Winner(pool, at)
  {
    best := None;
    for i := 0 to |pool|
      invariant best == Winner(pool[..i], at)
    {
      assert pool[..i + 1][..i] == pool[..i];
      if at - MR_TRIGGER_WINDOW <= pool[i].occurredAt <= at && (best.None? || Earlier(pool[i], best.value)) {
        best := Some(pool[i]);
      }
    }
    assert pool[..|pool|] == pool;
  }

  lemma {:induction false} MentionsRepeatOne(e: Event, entities: seq<EntityRef>, key: string)
    ensures forall i :: 0 <= i < |Mentions(e, entities, key)| ==> Mentions(e, entities, key)[i] == e
    ensures Mentions(e, entities, key) != [] <==>
      exists k :: 0 <= k < |entities| && entities[k].kind == JiraIssue && entities[k].externalId == key
  {
    if entities != [] {
      var front := entities[..|entities| - 1];
      MentionsRepeatOne(e, front, key);
      if exists k :: 0 <= k < |front| && front[k].kind == JiraIssue && front[k].externalId == key {
        var k :| 0 <= k < |front| && front[k].kind == JiraIssue && front[k].externalId == key;
        assert entities[k] == front[k];
      }
    }
  }

  /** A run of one event at the end of a pool counts once. */
  lemma {:induction false} WinnerWithRun(pool: seq<Event>, run: seq<Event>, e: Event, at: int)
    requires run != [] && forall i :: 0 <= i < |run| ==> run[i] == e
    ensures Winner(pool + run, at) == Winner(pool + [e], at)
  {
    if |run| == 1 {
      assert run == [e];
    } else {
      var front := run[..|run| - 1];
      WinnerWithRun(pool, front, e, at);
      assert (pool + run)[..|pool + run| - 1] == pool + front;
      assert (pool + [e])[..|pool|] == pool;
    }
  }

  /** The winner of the pool of a key is the trigger. */
  lemma {:induction false} PoolWinnerIsTrigger(events: seq<Event>, key: string, at: int)
    ensures Winner(Pool(events, key), at) == Trigger(events, key, at)
  {
    if events != [] {
      var (front, last) := (events[..|events| - 1], events[|events| - 1]);
      PoolWinnerIsTrigger(front, key, at);
      MentionsRepeatOne(last, last.entities, key);
      var run := Mentions(last, last.entities, key);
      if IsMrLike(last.kind) && run != [] {
        WinnerWithRun(Pool(front, key), run, last, at);
        assert (Pool(front, key) + [last])[..|Pool(front, key)|] == Pool(front, key);
      } else {
        assert Pool(events, key) == Pool(front, key);
      }
    }
  }

  method AnnotateTransitionWithMr(events: array<Event>)
    modifies events
    ensures forall i :: 0 <= i < events.Length ==> events[i] == WithTrigger(old(events[..]), old(events[i]))
  {
    ghost var was := events[..];
    var pools := BuildIssueToMrCandidates(events[..]);
    if pools == map[] {
      forall i | 0 <= i < events.Length ensures WithTrigger(was, was[i]) == was[i] { EmptyIndex(was, was[i], pools); }
      return;
    }
    for n := 0 to events.Length
      invariant forall i :: 0 <= i < n ==> events[i] == WithTrigger(was, was[i])
      invariant forall i :: n <= i < events.Length ==> events[i] == was[i]
    {
      var event := events[n];
      if event.kind != JiraIssueTransitioned { continue; }
      var issue := FirstEntity(event.entities, JiraIssue);
      if issue.None? { continue; }
      var winner := FindTrigger(was, pools, issue.value.externalId, event.occurredAt);
      if winner.Some? { events[n] := event.(parent := Some(winner.value.externalId)); }
    }
  }

  /** Look the candidates of an issue up and pick the one to credit. */
  method FindTrigger(ghost was: seq<Event>, pools: map<string, seq<Event>>, key: string, at: int)
    returns (winner: Option<Event>)
    requires Pools(pools, was)
    ensures winner == Trigger(was, key, at)
  {
    PoolWinnerIsTrigger(was, key, at);
    assert PoolOf(pools, key) == Pool(was, key);
    if key !in pools { return None; }
    winner := MinInWindow(pools[key], at);
  }

  lemma EmptyIndex(events: seq<Event>, e: Event, pools: map<string, seq<Event>>)
    requires Pools(pools, events) && pools == map[]
    ensures WithTrigger(events, e) == e
  {
    var issue := FirstEntity(e.entities, JiraIssue);
    if issue.Some? { PoolWinnerIsTrigger(events, issue.value.externalId, e.occurredAt); }
  }

  // ---- rolled into a merge request ----

  datatype MergeRequestArtifact = MergeRequestArtifact(externalId: string, commitShas: seq<string>)

  /** The first merge request whose commits include the SHA. */
  function FirstMr(mrs: seq<MergeRequestArtifact>, sha: string): Option<string> {
    if mrs == [] then None
    else if sha in mrs[0].commitShas then Some(mrs[0].externalId)
    else FirstMr(mrs[1..], sha)
  }

  function RolledInto(mrs: seq<MergeRequestArtifact>, e: Event): Event {
    if e.kind == CommitAuthored && e.parent.None? && FirstMr(mrs, e.externalId).Some?
    then e.(parent := FirstMr(mrs, e.externalId))
    else e
  }

  lemma {:induction false} FirstMrSnoc(mrs: seq<MergeRequestArtifact>, mr: MergeRequestArtifact, sha: string)
    ensures FirstMr(mrs + [mr], sha) ==
      if FirstMr(mrs, sha).Some? then FirstMr(mrs, sha)
      else if sha in mr.commitShas then Some(mr.externalId) else None
  {
    if mrs == [] {
      assert mrs + [mr] == [mr];
    } else {
      assert (mrs + [mr])[1..] == mrs[1..] + [mr];
      FirstMrSnoc(mrs[1..], mr, sha);
    }
  }

  method IndexShas(mrs: seq<MergeRequestArtifact>) returns (index: map<string, string>)
    ensures forall sha :: FirstMr(mrs, sha) == if sha in index then Some(index[sha]) else None
  {
    index := map[];
    for i := 0 to |mrs|
      invariant forall sha :: FirstMr(mrs[..i], sha) == if sha in index then Some(index[sha]) else None
    {
      var mr := mrs[i];
      assert mrs[..i + 1] == mrs[..i] + [mr];
      ghost var before := index;
      for k := 0 to |mr.commitShas|
        invariant forall sha :: sha in index <==> sha in before || sha in mr.commitShas[..k]
        invariant forall sha :: sha in index ==> index[sha] == if sha in before then before[sha] else mr.externalId
      {
        var sha := mr.commitShas[k];
        assert mr.commitShas[..k + 1] == mr.commitShas[..k] + [sha];
        if sha !in index { index := index[sha := mr.externalId]; }
      }
      assert mr.commitShas[..|mr.commitShas|] == mr.commitShas;
      forall sha ensures FirstMr(mrs[..i + 1], sha) == if sha in index then Some(index[sha]) else None {
        FirstMrSnoc(mrs[..i], mr, sha);
      }
    }
    assert mrs[..|mrs|] == mrs;
  }

  method AnnotateRolledIntoMr(events: array<Event>, mrs: seq<MergeRequestArtifact>)
    modifies events
    ensures forall i :: 0 <= i < events.Length ==> events[i] == RolledInto(mrs, old(events[i]))
  {
    if mrs == [] { return; }
    var index := IndexShas(mrs);
    for n := 0 to events.Length
      invariant forall i :: 0 <= i < n ==> events[i] == RolledInto(mrs, old(events[i]))
      invariant forall i :: n <= i < events.Length ==> events[i] == old(events[i])
    {
      var event := events[n];
      if event.kind != CommitAuthored { continue; }
      if event.parent.Some? { continue; }
      if event.externalId in index { events[n] := event.(parent := Some(index[event.externalId])); }
    }
  }
}
