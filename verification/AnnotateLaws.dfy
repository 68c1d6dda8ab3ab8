/** What the two parent passes do to an event, exactly. */
module AnnotateLaws {
  import opened Basics
  import opened Activity
  import opened Annotate

  /** The first issue the event names. */
  ghost predicate NamesFirst(e: Event, issue: string) {
    exists i :: 0 <= i < |e.entities| && e.entities[i].kind == JiraIssue && e.entities[i].externalId == issue
                && forall j :: 0 <= j < i ==> e.entities[j].kind != JiraIssue
  }

  /** A request opened, merged or closed on the issue in the day up to the instant. */
  ghost predicate MayTrigger(c: Event, issue: string, at: int) {
    && c.kind in {MrOpened, MrMerged, GitHubPullRequestOpened, GitHubPullRequestMerged, GitHubPullRequestClosed}
    && (exists r :: r in c.entities && r.kind == JiraIssue && r.externalId == issue)
    && at - 86_400_000_000_000 <= c.occurredAt && c.occurredAt <= at
  }

  lemma MayTriggerIsCandidate(c: Event, issue: string, at: int)
    ensures MayTrigger(c, issue, at) <==> Candidate(c, issue, at)
  {
    if r :| r in c.entities && r.kind == JiraIssue && r.externalId == issue {
      var k :| 0 <= k < |c.entities| && c.entities[k] == r;
    }
  }

  /** The request may have triggered the event's first issue's transition. */
  ghost predicate Triggers(events: seq<Event>, e: Event, c: Event) {
    c in events && exists issue :: NamesFirst(e, issue) && MayTrigger(c, issue, e.occurredAt)
  }

  lemma TriggersByIssue(events: seq<Event>, e: Event)
    ensures var issue := FirstEntity(e.entities, JiraIssue);
      forall c :: Triggers(events, e, c) <==>
        c in events && issue.Some? && Candidate(c, issue.value.externalId, e.occurredAt)
  {
    FirstEntityIsFirst(e.entities, JiraIssue);
    var issue := FirstEntity(e.entities, JiraIssue);
    forall c
      ensures Triggers(events, e, c) <==>
        c in events && issue.Some? && Candidate(c, issue.value.externalId, e.occurredAt)
    {
      if issue.Some? {
        assert NamesFirst(e, issue.value.externalId);
        MayTriggerIsCandidate(c, issue.value.externalId, e.occurredAt);
      }
    }
  }

  /** A transition gets the id of the earliest request that may have triggered it, by
      time and then by id, as its parent, whatever the parent was; without one, or of
      another kind, an event stays as it is. */
  lemma TransitionParentExactly(events: seq<Event>, e: Event)
    ensures
      if e.kind == JiraIssueTransitioned && exists c :: Triggers(events, e, c) then
        exists t :: Triggers(events, e, t) && WithTrigger(events, e) == e.(parent := Some(t.externalId))
                    && forall c :: Triggers(events, e, c) ==>
                         t.occurredAt < c.occurredAt || (t.occurredAt == c.occurredAt && t.id <= c.id)
      else WithTrigger(events, e) == e
  {
    TriggersByIssue(events, e);
    if e.kind == JiraIssueTransitioned && exists c :: Triggers(events, e, c) {
      var t := EarliestTrigger(events, e);
    } else {
      var issue := FirstEntity(e.entities, JiraIssue);
      if issue.Some? { TriggerIsEarliest(events, issue.value.externalId, e.occurredAt); }
    }
  }

  lemma EarliestTrigger(events: seq<Event>, e: Event) returns (t: Event)
    requires e.kind == JiraIssueTransitioned && exists c :: Triggers(events, e, c)
    ensures Triggers(events, e, t) && WithTrigger(events, e) == e.(parent := Some(t.externalId))
    ensures forall c :: Triggers(events, e, c) ==>
      t.occurredAt < c.occurredAt || (t.occurredAt == c.occurredAt && t.id <= c.id)
  {
    TriggersByIssue(events, e);
    var issue := FirstEntity(e.entities, JiraIssue).value.externalId;
    TriggerIsEarliest(events, issue, e.occurredAt);
    t := Trigger(events, issue, e.occurredAt).value;
  }

  lemma {:induction false} FirstMrExactly(mrs: seq<MergeRequestArtifact>, sha: string)
    ensures FirstMr(mrs, sha).None? <==> forall i :: 0 <= i < |mrs| ==> sha !in mrs[i].commitShas
    ensures FirstMr(mrs, sha).Some? ==>
      exists i :: 0 <= i < |mrs| && sha in mrs[i].commitShas && FirstMr(mrs, sha) == Some(mrs[i].externalId)
                  && forall j :: 0 <= j < i ==> sha !in mrs[j].commitShas
  {
    if mrs != [] && sha !in mrs[0].commitShas {
      var rest := mrs[1..];
      FirstMrExactly(rest, sha);
      assert forall i :: 0 < i < |mrs| ==> mrs[i] == rest[i - 1];
      if i :| 0 <= i < |rest| && sha in rest[i].commitShas && FirstMr(rest, sha) == Some(rest[i].externalId)
              && forall j :: 0 <= j < i ==> sha !in rest[j].commitShas {
        assert mrs[i + 1] == rest[i];
      }
    }
  }

  /** A commit without a parent gets the first merge request that lists its SHA; every
      other event stays as it is. */
  lemma RolledIntoExactly(mrs: seq<MergeRequestArtifact>, e: Event)
    ensures
      if e.kind == CommitAuthored && e.parent == None && exists m :: m in mrs && e.externalId in m.commitShas then
        exists i :: 0 <= i < |mrs| && e.externalId in mrs[i].commitShas
                    && (forall j :: 0 <= j < i ==> e.externalId !in mrs[j].commitShas)
                    && RolledInto(mrs, e) == e.(parent := Some(mrs[i].externalId))
      else RolledInto(mrs, e) == e
  {
    FirstMrExactly(mrs, e.externalId);
    if m :| m in mrs && e.externalId in m.commitShas {
      var i :| 0 <= i < |mrs| && mrs[i] == m;
    }
  }
}
