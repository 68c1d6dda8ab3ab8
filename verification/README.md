# A verified model of Dayseam's report core

Dayseam collects a person's activity from several services and writes a daily
report. This project models the three parts of it where mistakes would be
subtle, and proves what they promise.

**Generate runs.** Any number of generate calls, their background tasks and user
cancels share a map from (person, date, template) to the run that owns the key, a
cancel token per run, and durable run and draft rows. `RunProtocol` is a step
relation in which every lock acquisition, token fire and row or draft write is a
step of its own, and steps of all runs interleave freely. `RunInvariant`,
`RunSafety`, `RunTheorems` and `RunProgress` prove what holds over every behavior,
including the exact condition where a promise of the code's comments does not
hold; `RunSchedules` tells those conditions by the steps taken, `RunOutcomes` tells
which steps lead to which end, `RunRecords` what tokens and rows tell of them,
and `RunTraces` gives a reachable state for each such case. `InFlight`, `SyncRuns` and `Retention` are
the mutable objects themselves (map and tokens, row repository with crash
recovery, sweep debounce), as classes whose methods are proved against the
functions the step relation uses.

**The report pipeline.** `Dedup`, `TicketKeys`, `PrUrls`, `Enrich`, `Annotate`
and `Pipeline` are the passes over a day's events; `RollupKeys`, `Rollup` and
`RollupLoops` group events by artifact; `Sections` and `Render` turn groups into
sections. Methods carry the loops; each is proved equal to a specification
function. Laws about those functions are in `DedupLaws`, `EnrichLaws`, `PrUrlForms`
and `AnnotateLaws`; in `RollupConserve`, `RollupMerge`, `RollupTheorems`, `RollupInputs`,
`RollupBuckets`, `RollupDetails` and `RollupOrder`; in `RenderLaws` and `RenderDetails`;
and, from an event to the section it is shown under, in `SectionPlaces` and `EndToEnd`.
`Coalesce` (merging list elements by key, in place of the first) serves both
deduplication and the merge of commit sets; `Basics`, `Ordered` and `Text` hold
sorting, ordered-map walks and decimal text.

**Tokens and retries.** `OAuth` is the refresh of an expired access token as one
call under the lock; `OAuthProtocol` lets many callers interleave at every await,
lock release and clock reading; `OAuthTheorems` proves single flight, refresh
token rotation (section 6 of RFC 6749) and what is durable when, and `OAuthReplies`
follows a token reply to what all callers may do with it. `HttpRetry` is the retry
loop with its waits; `HttpOutcomes` tells its ends and waits by statuses and seconds.

Inputs from outside (clock readings, replies, failures of writes, jitter draws,
template wording, cancel timing) are parameters or free choices of a step.

## Where the code and its comments differ

The model follows the code.

- generate.rs says a superseded run's results are dropped; the guard looks at the
  slot once, so a draft is written by a run superseded before it, if the newer run
  has left the slot (`RunTraces.OlderDraftCanLandLast`), and by one superseded
  behind it (`RunTraces.SupersededBetweenGuardAndDraft`). There are no other ways:
  `RunSchedules.StaleDraftExactly` gives the exact condition, `RunSchedules.GuardStopsExactly`
  that of the guard alone.
- generate.rs relies on the newer run having marked the older row. The row can stay
  running (`RunTraces.OverlapCanLeaveRowRunning`; exactly when, in
  `RunSchedules.RowLeftRunningExactly`) or blame the user
  (`RunTraces.OverlapCanBlameTheUser`, `RunTraces.StalledSupersederCanBlameTheUser`;
  exactly when, in `RunSchedules.UserIsBlamedExactly`).
- generate.rs reports the run that replaced a superseded one; its row can name one
  superseder and its outcome a later one (`RunTraces.OutcomeCanNameAnotherRun`; when the
  two agree, exactly, in `RunSchedules.OutcomeNamesRowsRunExactly`).
- generate.rs promises that an older run is always cancelled by a newer one; a failed
  insert removes whatever entry the slot holds (`RunTraces.FailedInsertCanEvictNewerRun`;
  exactly when it matters, in `RunSchedules.LostSlotFiresToken`).
- rollup.rs says every event lands in exactly one group and that colliding
  sentinels are true duplicates; bucket keys hold a project, space or day that the
  artifact id does not (`RollupInputs.IssueInTwoProjectsLosesEvent`; the exact condition
  on events and artifacts in `RollupInputs.RollUpPartition`). Its claim of a total group
  order fails exactly when one kind comes with meetings and other payloads
  (`RollupOrder.GroupOrderExactly`).
- render.rs says nonempty groups give at least one section; `RenderLaws.NoSectionExactly`
  says when they do not.
- auth.rs says there is no window with a new token in memory and the old pair in
  the keychain; there is one while the write is under way (`OAuthTheorems.MemoryRunsAheadOfStore`)
  and from a failed write on, which is not repeated before the new token expires
  (`OAuthTheorems.FailedWriteStays`). These are all such moments: `OAuthTheorems.UnstoredExactly`.
- The pull-request scanner resumes behind a rejected `/pull/`, and so misses a
  reference in a repository of that name (`PrUrls.SharedSlashHidesReference`).
- pipeline.rs announces four passes and runs five.

## Model

| member | source | states |
|---|---|---|
| RunInvariant.ReachableInv | crates/dayseam-orchestrator/src/generate.rs:93-604 | In every interleaving, failed writes included: a slot names the live run of its key that swapped in last; each run's local state, row, draft, prior and superseder fit together |
| RunTheorems.NothingIsTakenBack | crates/dayseam-orchestrator/src/generate.rs:545-562 | Between any two states of a behavior: a fired token stays fired, a draft stays, a row leaves Running at most once and a terminal row never changes, an ended run keeps its outcome |
| RunTheorems.DraftPassedCheckBeforeAnyFire | crates/dayseam-orchestrator/src/generate.rs:278-299 | A run that writes a draft passed its cancel check, and before any superseder or user fired its token, in every interleaving |
| RunTheorems.DraftExactlyWhenCompleted | crates/dayseam-orchestrator/src/generate.rs:504-604 | An ended run has a draft if and only if its outcome is Completed |
| RunSchedules.LostSlotFiresToken | crates/dayseam-orchestrator/src/generate.rs:266-299 | A live run the slot does not name has its token fired, or its superseder stands between swap and fire, if and only if no other run of the key, failing its insert, removed its entry |
| RunSchedules.UncancelledExactly | crates/dayseam-orchestrator/src/generate.rs:266-299 | While no start of its key stands between swap and fire, a live run is unfired by superseders if and only if it holds its slot or its entry was so removed |
| RunSchedules.OneUncancelledRun | crates/dayseam-orchestrator/src/generate.rs:266-299 | So of the live runs of a key whose entry was not removed at most one is uncancelled then |
| RunSchedules.EvictionNeedsFailedInsert | crates/dayseam-orchestrator/src/generate.rs:151-163 | Such a removal takes a failed insert of the key |
| RunTheorems.FiredRunNeverHoldsSlotAgain | crates/dayseam-orchestrator/src/generate.rs:821-840 | Once a superseder fired a token, no later state's slot names that run |
| RunTheorems.SlotNamesLastLiveRun | crates/dayseam-orchestrator/src/generate.rs:833-840 | A slot never names an ended run; it names the last of its key to swap in |
| RunTheorems.GuardDecidesBySlot | crates/dayseam-orchestrator/src/generate.rs:504-522 | Whom the persist-time guard lets through, exactly, and whom it names otherwise |
| RunTheorems.SupersededRunPassesGuardExactly | crates/dayseam-orchestrator/src/generate.rs:504-522 | At the guard, and without a failed insert: a run already superseded passes if and only if the last run of its key has ended |
| RunSchedules.GuardStopsExactly | crates/dayseam-orchestrator/src/generate.rs:504-528 | Whatever failed: after the guard the draft insert is possible if and only if no run of the key swapped in later, or the slot is empty |
| RunSchedules.StaleDraftExactly | crates/dayseam-orchestrator/src/generate.rs:504-543 | Every draft insert has a guard behind it, and is of a run no longer the last of its key if and only if a start of the key came between guard and insert, or one had come before and the slot was empty at the guard |
| RunTheorems.SupersededByPointsForward | crates/dayseam-orchestrator/src/generate.rs:305-320 | `superseded_by` names an existing row: that of the next run of the key |
| RunTheorems.SupersedePathsAreAcyclic | crates/dayseam-orchestrator/src/generate.rs:305-320 | Run numbers grow along every chain of `superseded_by`, so none comes back |
| RunTheorems.OutcomeNamesRowsRunOrLater | crates/dayseam-orchestrator/src/generate.rs:842-888 | The superseder an outcome names is the run in the row, or one that swapped in later |
| RunSchedules.OutcomeNamesRowsRunExactly | crates/dayseam-orchestrator/src/generate.rs:818-888 | There is an earlier look of the run at its slot, its outcome names the run seen there, and that is the run in the row if and only if no later run of the key had started by that look |
| RunSchedules.RowLeftRunningExactly | crates/dayseam-orchestrator/src/generate.rs:842-888 | When all runs of a key have ended and its writes succeeded, a row is left Running if and only if a superseder marked it before it was inserted and the run later found another run in its slot |
| RunSchedules.RowIsTerminalExactly | crates/dayseam-orchestrator/src/generate.rs:305-320 | Whatever failed: a row has left Running if and only if a superseder marked it after its insert or the run's own final write succeeded |
| RunSchedules.UserMarkLandsExactly | crates/dayseam-orchestrator/src/generate.rs:861-878 | Whatever failed: a run that records a user cancel gets it recorded if and only if no superseder had marked its row after the insert |
| RunSchedules.UserIsBlamedExactly | crates/dayseam-orchestrator/src/generate.rs:842-888 | Without failed writes, a run no user cancelled is recorded as cancelled by the user if and only if its superseder is still starting or marked the row before it was inserted |
| RunSchedules.MarkMissedMeans | crates/dayseam-orchestrator/src/generate.rs:305-320 | The recorded missed mark holds of a run if and only if an earlier step of a superseder marked it while it had no row |
| RunSchedules.SawNewerMeans | crates/dayseam-orchestrator/src/generate.rs:818-831 | A run ends superseded if and only if it found another run in its slot at its cancel path or guard |
| RunOutcomes.FailureExactly | crates/dayseam-orchestrator/src/generate.rs:151-163 | A run is evicted, marked failed or ended as failed if and only if an earlier step of it failed: its insert, the storing of its activity, its rendering or its draft insert |
| RunOutcomes.CompletionExactly | crates/dayseam-orchestrator/src/generate.rs:524-604 | A run is finishing or ended as completed if and only if it wrote its draft |
| RunOutcomes.UserCancelExactly | crates/dayseam-orchestrator/src/generate.rs:842-888 | A run is on its way to record, or ended with, a cancel by the user if and only if it looked at its slot on its cancel path and found no other run there |
| RunOutcomes.EndsExactly | crates/dayseam-orchestrator/src/generate.rs:384-604 | How an ended run ended, one of four ways, each told if and only if by the steps it took |
| RunOutcomes.UserCancelIsRecorded | crates/dayseam-orchestrator/src/generate.rs:842-888 | A run fired by the user before its check and by no superseder, that finds nobody else in its slot and whose mark is written, ends cancelled by the user in outcome and row, without a draft |
| RunOutcomes.UndisturbedRunCompletes | crates/dayseam-orchestrator/src/generate.rs:384-604 | A run nobody fires and nobody replaces, with no failing step, ends completed, with its draft and its row |
| RunRecords.PlainUserCancel | crates/dayseam-orchestrator/src/generate.rs:842-888 | A plain user cancel told by steps: after a user cancel before the check, with no superseder's fire, nobody else seen in the slot and no failing mark, an ended run ended cancelled by the user in outcome and row, without a draft |
| RunRecords.FiredExactly | crates/dayseam-orchestrator/src/generate.rs:284-299 | A run's token is fired by the user if and only if a user cancel of it came, and by a superseder if and only if the run that replaced it took its fire step |
| RunRecords.RowTellsItsWrite | crates/dayseam-orchestrator/src/generate.rs:305-320 | A row reads completed, failed, cancelled by the user or superseded by a given run if and only if a successful write of just that found it running |
| RunRecords.RowExistsExactly | crates/dayseam-orchestrator/src/generate.rs:151-176 | A run has a row if and only if its insert succeeded |
| RunTheorems.CleanKeyEndsTerminal | crates/dayseam-orchestrator/src/generate.rs:842-923 | If starts of a key do not overlap and writes succeed, all rows end terminal, and read cancelled by the user only for runs the user cancelled |
| RunSafety.ReachableTidy | crates/dayseam-orchestrator/src/generate.rs:131-209 | Per key, as long as the respective failure has not happened: live runs are in their slot or swapped out, rows are settled, starts are in turn, user cancels are the user's |
| RunProgress.BehaviorsAreBounded | crates/dayseam-orchestrator/src/generate.rs:93-604 | A behavior takes at most twelve steps per start and one per user cancel |
| RunProgress.LiveRunCanMove | crates/dayseam-orchestrator/src/generate.rs:93-604 | A live run is never stuck: it has an enabled step of its own |
| RunProgress.HistoryMeans | crates/dayseam-orchestrator/src/generate.rs:149-192 | The sets that condition the theorems above hold a key if and only if an earlier step failed a write, or overlapped a start, of it |
| RunTraces.OlderDraftCanLandLast | crates/dayseam-orchestrator/src/generate.rs:504-543 | A behavior in which a superseded run is about to write its draft after the newer run's |
| RunTraces.SupersededBetweenGuardAndDraft | crates/dayseam-orchestrator/src/generate.rs:509-528 | A behavior in which a run superseded behind its guard is about to write its draft while the newer run lives |
| RunTraces.OutcomeCanNameAnotherRun | crates/dayseam-orchestrator/src/generate.rs:842-888 | A behavior in which a row names one superseder and the outcome a later one |
| RunTraces.OverlapCanLeaveRowRunning | crates/dayseam-orchestrator/src/generate.rs:305-320 | A behavior, all writes succeeding, that ends with a Running row of an ended run |
| RunTraces.OverlapCanBlameTheUser | crates/dayseam-orchestrator/src/generate.rs:842-888 | A behavior, all writes succeeding, in which a run no user cancelled is recorded as cancelled by the user |
| RunTraces.StalledSupersederCanBlameTheUser | crates/dayseam-orchestrator/src/generate.rs:842-888 | Another one, in which no superseder ever tried to mark its row |
| RunTraces.FailedInsertCanEvictNewerRun | crates/dayseam-orchestrator/src/generate.rs:151-163 | A behavior in which a failed insert removes a newer run's entry, and two runs of a key live on uncancelled |
| InFlight.InFlightMap.Swap | crates/dayseam-orchestrator/src/generate.rs:284-296 | Under one lock the new entry replaces the old, which is returned; the protocol's swap |
| InFlight.InFlightMap.SwapInFlightAndCancel | crates/dayseam-orchestrator/src/generate.rs:266-299 | The older token is fired, the new one is not, and the older run's id comes back |
| InFlight.InFlightMap.SupersededBy | crates/dayseam-orchestrator/src/generate.rs:818-831 | The run in the slot when it is another one; the protocol's look |
| InFlight.InFlightMap.DropIfOurs | crates/dayseam-orchestrator/src/generate.rs:833-840 | Removes the entry only if it is the caller's, and leaves every other entry and its token; the protocol's drop |
| InFlight.InFlightMap.Remove | crates/dayseam-orchestrator/src/generate.rs:162 | The failed-insert path removes the key's entry whoever holds it; the protocol's eviction |
| InFlight.InFlightMap.Cancel | crates/dayseam-orchestrator/src/orchestrator.rs:260-278 | Fires the token of the entry with that run id, reports whether there was one, touches no other token |
| SyncRuns.SyncRunRepo.Insert | crates/dayseam-db/src/repos/sync_runs.rs:37-75 | Succeeds if and only if the row is a fresh Running one with no dangling reference, and then adds exactly that row |
| SyncRuns.SyncRunRepo.Transition | crates/dayseam-db/src/repos/sync_runs.rs:162-219 | Succeeds if and only if the row reads Running and the reference holds; it then has the given status, instant, reason, referenced run and sources and its old start time; seen through the protocol it makes the protocol's transition; row consistency is kept |
| SyncRuns.SyncRunRepo.ListRunning | crates/dayseam-db/src/repos/sync_runs.rs:255-267 | Exactly the Running unfinished rows, each once, oldest first |
| SyncRuns.SyncRunRepo.RecoverCrashedRuns | crates/dayseam-orchestrator/src/startup.rs:114-140 | Recovers and counts all crashed rows unless listing or a write fails; a failed listing changes nothing, a failed write stops it with every row either old or recovered |
| SyncRuns.RemapPerSource | crates/dayseam-orchestrator/src/startup.rs:145-166 | No source is left pending or running; finished sources, ids and counts are unchanged |
| SyncRuns.RecoveryLeavesNoRunningRow | crates/dayseam-orchestrator/src/startup.rs:114-166 | From any table: recovery changes no row that does not read Running, and leaves none that does, if and only if no Running row carries a finish time |
| SyncRuns.RecoveryFailsRunningRows | crates/dayseam-orchestrator/src/startup.rs:114-166 | On consistent rows each Running row makes the protocol's transition to Failed; recovery is idempotent |
| SyncRuns.RecoveredRowExactly | crates/dayseam-orchestrator/src/startup.rs:114-166 | A crashed row becomes failed at the recovery's instant, its pending and running sources fail with the restart message, finished sources, start times and every other row stay |
| Retention.RetentionSchedule.ClaimSweepSlot | crates/dayseam-orchestrator/src/retention.rs:186-198 | Grants by elapsed time since the last grant, under any clock; records the grant and counts it |
| Retention.RetentionSchedule.NoteExternalSweep | crates/dayseam-orchestrator/src/retention.rs:204-206 | Records the instant, counts nothing |
| Retention.RetentionSchedule.Drive | crates/dayseam-orchestrator/src/retention.rs:186-214 | Over any mixture of claims and notes: which claims are granted, the recorded instant, and the counter as the number of grants |
| Retention.GrantFollowsMarkExactly | crates/dayseam-orchestrator/src/retention.rs:186-206 | A claim is granted if and only if the interval has passed since the last grant or external note before it |
| Retention.RetentionSchedule.ClaimAll | crates/dayseam-orchestrator/src/retention.rs:186-214 | Over any sequence of claims the counter grows by exactly the number granted |
| Retention.GrantsAreSpaced | crates/dayseam-orchestrator/src/retention.rs:186-198 | Any two granted claims of a sequence are at least the interval apart, even under a clock that runs back |
| Retention.GrantsAreBounded | crates/dayseam-orchestrator/src/retention.rs:186-214 | So at most 1 + (last - first) / interval claims are granted |
| Dedup.MergeTwo | crates/dayseam-report/src/dedup.rs:117-137 | The in-place merge computes the winner with united links, entities, privacy and actor |
| Dedup.DedupCommitAuthored | crates/dayseam-report/src/dedup.rs:56-115 | The slot loop equals, per SHA, one left fold of the merge kept at the first position of the SHA, everything else in place |
| DedupLaws.KeptCommitIsCanonical | crates/dayseam-report/src/dedup.rs:117-195 | The commit kept for a SHA is the copy with the longest body, and of those the least source, in every field but links, entities, privacy and the parts of the actor it lacks; links and entities are its own followed by exactly those of all copies, privacy the strictest, a missing email or external id one of another copy's |
| DedupLaws.DedupIgnoresOrder | crates/dayseam-report/src/dedup.rs:56-195 | For any permutation of the events the commit kept for a SHA has the same body length, source, links, entities, privacy and presence of email and id |
| DedupLaws.NonCommitsPassThrough | crates/dayseam-report/src/dedup.rs:56-115 | Other events come out unchanged and in order |
| DedupLaws.ShasAreKept | crates/dayseam-report/src/dedup.rs:56-115 | Each SHA of the input comes out exactly once |
| DedupLaws.OneMoreEvent | crates/dayseam-report/src/dedup.rs:56-115 | One more event is appended, unless it is a commit seen before: then only the one place of that commit changes |
| TicketKeys.ScanTicketKeys | crates/dayseam-report/src/enrich.rs:472-514 | The byte scanner appends exactly the occurrences of a ticket key, in order, for every text |
| TicketKeys.KeysAreExact | crates/dayseam-report/src/enrich.rs:462-514 | A text has a key if and only if somewhere two to ten capitals, a hyphen and digits stand with no alphanumeric on either side |
| TicketKeys.KeyByItself | crates/dayseam-report/src/enrich.rs:462-514 | A text by itself is a key if and only if it is two to ten capitals, a hyphen and digits |
| TicketKeys.KeysLookLikeKeys | crates/dayseam-report/src/enrich.rs:462-514 | Whatever stands around it, what is read has that form |
| PrUrls.ReadRef | crates/dayseam-report/src/enrich.rs:355-426 | At a `/pull/` a reference is read if and only if host, owner, repository and digits around it are valid |
| PrUrls.ScanGithubPrUrls | crates/dayseam-report/src/enrich.rs:340-427 | The scanner terminates within bounds and appends exactly the references at the markers it visits, in order |
| PrUrls.RefsAreExact | crates/dayseam-report/src/enrich.rs:340-427 | Sound and complete: a reference is found if and only if it stands at a marker that does not share a slash with a visited one |
| PrUrls.AllRefsFoundWithoutSharedSlashes | crates/dayseam-report/src/enrich.rs:340-427 | Every reference is found when no two `/pull/` share a slash |
| PrUrls.SharedSlashHidesReference | crates/dayseam-report/src/enrich.rs:355-426 | In `/github.com/o/pull/pull/4` there is a reference and none is found |
| PrUrlForms.LinkIsRead | crates/dayseam-report/src/enrich.rs:340-427 | For every owner, repository other than `pull` and number, the link a browser shows is read as `repository#number` under the caption `#number` |
| Enrich.ExtractTicketKeys | crates/dayseam-report/src/enrich.rs:87-114 | In place, each event gets the references its text asks for and nothing else changes |
| EnrichLaws.TicketsAttachedExactly | crates/dayseam-report/src/enrich.rs:75-114 | An event ends with an issue if and only if it had it, or its title or body names the key among at most three distinct ones; what is new comes last, in alphabetical order and without a caption, and nothing else changes |
| Enrich.ExtractGithubPrUrls | crates/dayseam-report/src/enrich.rs:292-321 | In place, each opened or merged request gets the pull requests its text names, each once |
| EnrichLaws.PrUrlsAttachedExactly | crates/dayseam-report/src/enrich.rs:292-321 | Opened and merged GitLab requests, and no other events, get exactly the pull requests their title or body links to, once each, in order, under the link's caption; nothing else changes |
| Enrich.SortedKeysAreDistinct | crates/dayseam-report/src/enrich.rs:94-98 | The noise threshold counts the distinct keys of the text |
| Annotate.AnnotateTransitionWithMr | crates/dayseam-report/src/enrich.rs:162-216 | Indexing candidates and picking per transition equals picking over all events, in place; no other event or field changes |
| Annotate.TriggerIsEarliest | crates/dayseam-report/src/enrich.rs:162-256 | The trigger is the (time, id)-least merge-request event on the issue within 24 hours before the transition; there is none if and only if no event qualifies |
| Annotate.TriggerIgnoresOrder | crates/dayseam-report/src/enrich.rs:162-216 | With distinct ids the trigger does not depend on the order of events |
| AnnotateLaws.TransitionParentExactly | crates/dayseam-report/src/enrich.rs:162-256 | A transition whose issue some opened, merged or closed request names in the 24 hours up to it gets the external id of the earliest of them, by time and then id, as its parent; every other event stays as it is |
| Annotate.AnnotateRolledIntoMr | crates/dayseam-report/src/rollup_mr.rs:73-105 | In place, each commit's parent is the first merge request that lists its SHA |
| AnnotateLaws.RolledIntoExactly | crates/dayseam-report/src/rollup_mr.rs:73-105 | A commit without a parent whose SHA some merge request lists gets the first such request's external id; every other event stays as it is |
| Pipeline.RunPipeline | crates/dayseam-report/src/pipeline.rs:64-71 | The five passes in order, as one function of events and merge requests |
| Pipeline.PipelineIsIdempotent | crates/dayseam-report/src/pipeline.rs:38-71 | For every input, running the pipeline on its output changes nothing |
| Pipeline.NoPassHasWorkLeft | crates/dayseam-report/src/pipeline.rs:64-71 | On the output no SHA is there twice, and each of the four attaching passes leaves every event as it is |
| Pipeline.PassesTouchReferencesOnly | crates/dayseam-report/src/pipeline.rs:64-71 | The output is the deduplicated list with nothing changed but entities and parents |
| Pipeline.ParentsAreFixed | crates/dayseam-report/src/pipeline.rs:64-71 | The two parent passes touch parents only and are fixed on their own output |
| RollupKeys.MrExternalIdIsInjective | crates/dayseam-report/src/rollup.rs:389-409 | The external id of a merge request determines provider, project, number and day |
| RollupKeys.IdsCollideExactly | crates/dayseam-report/src/rollup.rs:300-433 | Two buckets get one artifact id if and only if they differ at most in what the id leaves out; merge-request buckets never do |
| RollupKeys.SynthesizeKeepsBucket | crates/dayseam-report/src/rollup.rs:300-433 | Source and payload of a synthesized artifact give the bucket back, and its payload lists the bucket's events in order |
| RollupKeys.GithubIdReadsBack | crates/dayseam-report/src/rollup.rs:285-298 | An id `owner/repo#number` is read back as that repository and number, for every 64-bit number |
| RollupKeys.GitlabIdReadsBack | crates/dayseam-report/src/rollup.rs:266-283 | An id `!number` next to a repository is read back as those, for every 64-bit number |
| RollupDetails.BucketByKind | crates/dayseam-report/src/rollup.rs:178-261 | The bucket of an event holds its source and UTC day, and by its kind its issue and project, its page and space, its meeting, or its repository, with the fallbacks of a missing entity |
| RollupDetails.MergeRequestBucket | crates/dayseam-report/src/rollup.rs:178-300 | A GitLab or GitHub request is told by its repository and number if and only if its id is readable, and otherwise falls to its repository's day |
| RollupDetails.BucketIsDetermined | crates/dayseam-report/src/rollup.rs:178-298 | Each text and number these two speak of is the only one an event can have |
| Text.ParseI64Exactly | crates/dayseam-report/src/rollup.rs:272-298 | A number is read if and only if the text is digits, alone or behind one sign, and the number fits 64 bits |
| RollupDetails.SynthesizedIdentity | crates/dayseam-report/src/rollup.rs:300-433 | Source, kind, external id and creation instant of a synthesized artifact, for every sort of bucket |
| RollupDetails.SynthesizedPayload | crates/dayseam-report/src/rollup.rs:300-484 | What it records of its events: ids and SHAs, the stripped title of the first opening and the first link of a request, title and bounds of a meeting |
| RollupKeys.KeyLeIsTotalOrder | crates/dayseam-report/src/rollup.rs:144-176 | The derived order of bucket keys is total, so the ordered map has one walk |
| RollupLoops.TakeOut | crates/dayseam-report/src/rollup.rs:102-105 | Removing a key list from a map gives each value once, in list order, and leaves the rest |
| RollupLoops.ClaimEvents | crates/dayseam-report/src/rollup.rs:88-111 | The claim loop gives the claimed groups and the unclaimed events |
| RollupLoops.OrphansToGroups | crates/dayseam-report/src/rollup.rs:113-127 | Bucketing in id order and walking the buckets in key order gives the synthesized groups |
| RollupLoops.AbsorbEvents | crates/dayseam-report/src/rollup.rs:500-509 | The set-guarded push appends exactly the events of new external ids |
| RollupLoops.MergeDuplicateCommitSets | crates/dayseam-report/src/rollup.rs:486-537 | Map, order list and final drain, sentinels included, equal one coalescing by merge key |
| RollupLoops.RollUp | crates/dayseam-report/src/rollup.rs:78-133 | The whole rollup as a function of events, artifacts and date |
| RollupConserve.RawGroupsPartition | crates/dayseam-report/src/rollup.rs:83-127 | Before the merge every event sits in exactly one group, once |
| RollupConserve.FirstClaimWins | crates/dayseam-report/src/rollup.rs:88-111 | An event is in the group of an artifact if and only if that one is the first to claim it |
| RollupConserve.UnclaimedIsBucketed | crates/dayseam-report/src/rollup.rs:113-127 | An event nobody claims is in the group synthesized for its bucket |
| RollupConserve.IndexKeepsLast | crates/dayseam-report/src/rollup.rs:83-84 | Of several events of one id the rollup sees the last |
| RollupMerge.FoldIsOneAbsorb | crates/dayseam-report/src/rollup.rs:486-513 | Merging commit sets pairwise, sorting each time, keeps the first's artifact (its recorded event ids included) and the events of one pass |
| RollupMerge.MergedSetRecordsExactly | crates/dayseam-report/src/rollup.rs:495-512 | The event ids recorded in a merged commit set still list its events if and only if no later set of its repository and day brings a new external id |
| RollupMerge.MergeAtMost | crates/dayseam-report/src/rollup.rs:486-537 | The merge never duplicates an event |
| RollupMerge.CommitSetEventKept | crates/dayseam-report/src/rollup.rs:495-512 | A commit-set event stays if and only if it is in the first set or the first met with its external id |
| RollupMerge.CommitSetEventAccounted | crates/dayseam-report/src/rollup.rs:495-512 | What a commit set loses is there under its external id in the group of the same repository and day |
| RollupMerge.AloneEventKept | crates/dayseam-report/src/rollup.rs:514-537 | Any other event stays if and only if no later group has its group's artifact id |
| RollupTheorems.RawPartition | crates/dayseam-report/src/rollup.rs:78-133 | With distinct event ids every event is out or accounted for if and only if no group outside the commit sets is overwritten while holding events |
| RollupInputs.NothingOverwrittenExactly | crates/dayseam-report/src/rollup.rs:486-537 | That is so if and only if, on the given events and artifacts: no artifact outside the commit sets that is the first to claim an event shares its id with a later one or with the bucket of an unclaimed event, and unclaimed events of one bucket id are in one bucket |
| RollupInputs.RollUpPartition | crates/dayseam-report/src/rollup.rs:78-133 | With distinct event ids nothing comes out twice; and every event is out, or stood in for by its external id in the commit set of its own repository and day, if and only if that condition on the inputs holds |
| RollupInputs.ClaimedEventStaysExactly | crates/dayseam-report/src/rollup.rs:514-537 | One event claimed outside the commit sets is out if and only if no later such artifact and no bucket of unclaimed events has the id |
| RollupBuckets.FreeEventStaysExactly | crates/dayseam-report/src/rollup.rs:113-127 | One unclaimed event outside the commit sets is out if and only if no other has its issue and day under a later project, its page and day under a later space, or its meeting on a later day |
| RollupBuckets.CommitSetArtifactExactly | crates/dayseam-report/src/rollup.rs:486-537 | A merged commit set keeps the first artifact of its repository and day, or without one that of the least source with unclaimed events there |
| RollupInputs.CommitSetsOverwriteNothing | crates/dayseam-report/src/rollup.rs:178-261 | When all artifacts are commit sets, or there are none, the condition is: no two unclaimed events agree in what an artifact id records but differ in bucket |
| RollupInputs.MergeRequestEventsStay | crates/dayseam-report/src/rollup.rs:389-409 | Whatever the artifacts, a merge-request event none of them claims is never lost |
| RollupInputs.IssueInTwoProjectsLosesEvent | crates/dayseam-report/src/rollup.rs:334-350 | Two transitions of one issue under two projects: one of them is lost |
| RollupTheorems.RollUpIgnoresOrder | crates/dayseam-report/src/rollup.rs:78-133 | With distinct event ids every permutation of the events gives the same groups in the same order |
| RollupOrder.GroupLeIsOrder | crates/dayseam-report/src/rollup.rs:591-613 | On groups of which those of one kind agree on being meetings, the comparator is total, transitive and ties only on equal ids |
| RollupOrder.MeetingsBreakOrder | crates/dayseam-report/src/rollup.rs:591-613 | Around every group that is not a meeting, two meetings of its kind break transitivity |
| RollupOrder.GroupOrderExactly | crates/dayseam-report/src/rollup.rs:591-613 | For any choice of admitted kinds and payloads the comparator is transitive on all admitted groups if and only if no kind admits both meetings and others |
| RollupOrder.RollUpSorts | crates/dayseam-report/src/rollup.rs:130-133 | The output is in order whenever artifacts of one kind, and the buckets synthesized with that kind, agree on being meetings |
| RollupOrder.EventsComeInOrder | crates/dayseam-report/src/rollup.rs:582-589 | In every group of the output, claimed, synthesized or merged, events come by time, then external id, then id |
| RollupOrder.GroupsComeInOrder | crates/dayseam-report/src/rollup.rs:591-613 | Under the same condition as RollUpSorts groups come by the name of their kind, then meetings by start and others by external id, then by id |
| RollupOrder.LocalGitSorts | crates/connectors/connector-local-git/src/walk.rs:346-370 | With local-git artifacts, or none, the output is always in order |
| RollupInputs.IdsTellKeysExactly | crates/dayseam-report/src/rollup.rs:486-553 | Groups of one artifact id are merged into one if and only if, on the inputs, artifacts of one id have one merge key and an artifact with the id of an unclaimed bucket has its merge key |
| RollupInputs.LocalGitIdsTellKeys | crates/connectors/connector-local-git/src/walk.rs:346-370 | For the commit sets the local-git connector builds this always holds |
| Sections.Index | crates/dayseam-report/src/sections.rs:216-245 | A section's index is its place in the render order |
| Render.RenderGroup | crates/dayseam-report/src/render.rs:421-520 | One bullet per event or per group, by kind; one failing template call fails the group |
| RenderDetails.GroupPiecesExactly | crates/dayseam-report/src/render.rs:421-570 | Every bullet of a group on its own fields (section, id, text or redaction, source kind, evidence), how many there are, and that a group fails if and only if a wording it needs is missing |
| RenderDetails.PiecesFailExactly | crates/dayseam-report/src/render.rs:297-321 | Building the sections fails if and only if some bullet of some group needs a wording that is missing |
| RenderDetails.PiecesInOrder | crates/dayseam-report/src/render.rs:297-321 | Bullets come group by group in the order of the groups, and any failing group fails all |
| RenderDetails.PiecesOfOne | crates/dayseam-report/src/render.rs:297-321 | One group alone gives its own bullets |
| Render.BuildSections | crates/dayseam-report/src/render.rs:275-356 | The bucket array gives the nonempty sections of the pieces and the evidence in rollup order, or fails if any group does |
| RenderDetails.ShownUnderItsSection | crates/dayseam-report/src/render.rs:275-356 | Every bullet is shown under its own section and no other |
| RenderDetails.SectionsComeInOrder | crates/dayseam-report/src/sections.rs:216-245 | Commits, merge requests, meetings, issues, pages and unlinked activity come in that order |
| SectionPlaces.FreeEventSection | crates/dayseam-report/src/sections.rs:130-166 | The bullet of an unclaimed event is shown by its kind: commits, Jira issues, merge requests with a readable id, meetings, pages; under unlinked activity if and only if all unclaimed events of its page bucket are unattached comments |
| SectionPlaces.ClaimedEventSection | crates/dayseam-report/src/sections.rs:130-166 | The bullet of a claimed event is shown by the payload of the artifact that claims it first; a page's under unlinked activity if and only if all events it claims first are unattached comments |
| SectionPlaces.EventIsShown | crates/dayseam-report/src/render.rs:275-356 | Every event in the rollup's output has a bullet that lists it, shown under its section and no other |
| SectionPlaces.FreeEventGroup | crates/dayseam-report/src/rollup.rs:78-133 | An unclaimed event is in a commit set if and only if its bucket is a repository's; otherwise it is with exactly the unclaimed events of its bucket, under the artifact synthesized from them |
| SectionPlaces.ClaimedEventGroup | crates/dayseam-report/src/rollup.rs:88-133 | A claimed event outside the commit sets is with exactly the events its artifact claims first, under that artifact |
| RenderLaws.SectionsAreStablySorted | crates/dayseam-report/src/render.rs:249-356 | All sections concatenated, without the summary, are the rollup-order bullets stably sorted by section |
| RenderLaws.SectionsAreOrderedAndFull | crates/dayseam-report/src/render.rs:337-356 | For any buckets, sections come in render order, each once, none empty, each with the bullets of its bucket |
| RenderLaws.EvidenceMatchesBullets | crates/dayseam-report/src/render.rs:266-274 | The shown bullets are those of the rollup, counted, and the evidence lists their ids one for one |
| RenderLaws.BulletIdsAreUnique | crates/dayseam-report/src/render.rs:961-983 | Groups that differ in artifact id or section, or render per event and share none, give distinct bullet ids, so evidence is found by id |
| RenderLaws.SummaryExactlyWhenTimed | crates/dayseam-report/src/render.rs:323-335 | The meetings summary is there if and only if meetings took at least a minute |
| RenderDetails.SummarySays | crates/dayseam-report/src/render.rs:572-615 | The last bullet of the meetings is their total in hours, minutes and percent of eight hours if it is positive, and every other bullet stands for a group |
| RenderDetails.MinutesExactly | crates/dayseam-report/src/render.rs:572-584 | A meeting counts the whole minutes between its bounds, none if they are reversed; other groups count nothing |
| RenderDetails.MinutesAddUp | crates/dayseam-report/src/render.rs:572-584 | The total is that of any one group and of all the others |
| Text.NoLeadingZero | crates/dayseam-report/src/render.rs:597-615 | The numbers of the summary print without a leading zero |
| RenderLaws.NoSectionExactly | crates/dayseam-report/src/render.rs:249-263 | There is no section if and only if every group renders per event and has none |
| RenderLaws.RedactedShowsNothing | crates/dayseam-report/src/render.rs:783-800 | Whatever the wording, the bullet of a redacted event is the fixed text |
| EndToEnd.PipelineKeepsIdsDistinct | crates/dayseam-report/src/pipeline.rs:64-71 | Events with distinct ids leave the pipeline with distinct ids |
| EndToEnd.RollUpGroupsAreDistinct | crates/dayseam-report/src/rollup.rs:78-133 | Whatever the artifacts, the output groups have distinct merge keys, share no event and hold no event id twice |
| EndToEnd.RollUpIdsDiffer | crates/dayseam-report/src/rollup.rs:591-613 | Where ids tell merge keys apart no two output groups have one artifact id, so none tie |
| EndToEnd.LocalGitIdsDiffer | crates/connectors/connector-local-git/src/walk.rs:346-370 | With local-git artifacts, or none, that needs no condition |
| EndToEnd.BulletsOfADayAreUnique | crates/dayseam-report/src/render.rs:44-66 | From events with distinct ids through pipeline, self filter, rollup with any artifacts and rendering: bullet ids are unique and each joins a bullet to its own evidence |
| EndToEnd.EventsOfADayAreKeptExactly | crates/dayseam-report/src/render.rs:44-66 | On the same way every event is kept or stood in for if and only if the inputs of the rollup overwrite nothing |
| OAuth.OAuthAuth.RefreshIfExpired | crates/connectors-sdk/src/auth.rs:648-706 | After an accepted reply memory holds its access token, its refresh token if given and nonempty, and the clock read after it plus its seconds, written or not; every error is told by the reply or the write and leaves the tokens unchanged unless the write failed; fields, store and log change as one serial call does |
| OAuth.LaterCallOnlyChecks | crates/connectors-sdk/src/auth.rs:648-706 | After a refresh a call whose clock reads before the reply's reading plus the reply's seconds succeeds and does nothing but check |
| OAuth.OAuthAuth.Authenticate | crates/connectors-sdk/src/auth.rs:742-753 | The attached token is the one in memory after the refresh; errors pass through |
| OAuthProtocol.ReachableInv | crates/connectors-sdk/src/auth.rs:648-706 | In every schedule only the owner of the lock is inside, and it sees what the finished calls left |
| OAuthTheorems.OneRefreshAtATime | crates/connectors-sdk/src/auth.rs:630-655 | At most one caller refreshes at any moment |
| OAuthTheorems.EveryRequestIsDue | crates/connectors-sdk/src/auth.rs:648-706 | Every request carries the newest nonempty refresh token received, every bearer token is the newest access token, and after a grant the clock was read past its expiry before the next request |
| OAuthTheorems.OneGrantServesAll | crates/connectors-sdk/src/auth.rs:630-655 | While all clock readings after a grant are before its expiry nobody sends a request |
| OAuthReplies.GrantComesFromReply | crates/connectors-sdk/src/auth.rs:667-706 | In every schedule a grant is preceded by its caller's reply and the clock it then read, and puts into memory that reply's tokens with an expiry that many seconds after that reading |
| OAuthReplies.GrantedEntryIsReply | crates/connectors-sdk/src/oauth.rs:301-345 | Every granted pair in the log is what one reply gave, read at one clock |
| OAuthReplies.OneReplyServesAll | crates/connectors-sdk/src/auth.rs:630-655 | While every caller reads the clock before that reading plus the reply's seconds, nobody sends a request |
| OAuthTheorems.UnstoredExactly | crates/connectors-sdk/src/auth.rs:637-706 | In every schedule, lock held or not: a granted pair is unwritten if and only if its caller is at the write or the last write failed; and whenever none is, the durable pair is the one in memory |
| OAuthTheorems.StoredIsMemoryWhenFree | crates/connectors-sdk/src/auth.rs:693-706 | So with the lock free the durable pair is the one in memory unless the last write failed, and always it is the pair written last |
| OAuthTheorems.CallsAreSerial | crates/connectors-sdk/src/auth.rs:648-706 | With the lock free the interleaved steps amount to the finished calls run one after the other |
| OAuthTheorems.MemoryRunsAheadOfStore | crates/connectors-sdk/src/auth.rs:637-641 | A schedule reaches a moment with the new pair in memory and the old one stored |
| OAuthTheorems.FailedWriteStays | crates/connectors-sdk/src/auth.rs:653-706 | In every schedule, from a failed write until a clock reading reaches the new expiry, memory keeps the new pair, the store the old one, nobody sends or writes, and calls that read the clock before the expiry succeed |
| HttpRetry.Send | crates/connectors-sdk/src/http.rs:150-325 | The loop ends in the first round that does not continue, with the outcome of that round and the waits of those before it |
| HttpOutcomes.EndsExactly | crates/connectors-sdk/src/http.rs:150-342 | A call goes on after a round if and only if it got status 429, 500, 502, 503 or 504 or a timeout, connect or request failure, an attempt is left and nobody cancels |
| HttpOutcomes.OutcomeExactly | crates/connectors-sdk/src/http.rs:150-325 | The outcome, by the last round's status or failure, the seconds a 429 asked for, and whether a server had answered before |
| HttpOutcomes.WaitExactly | crates/connectors-sdk/src/http.rs:345-383 | A wait is the seconds the server named, at most 300, and otherwise the plain wait times one plus the draw |
| HttpOutcomes.PlainWaits | crates/connectors-sdk/src/http.rs:354-371 | The first plain wait is twice the base, and each later one twice the one before, for sixteen doublings and up to the cap |
| HttpRetry.BudgetHolds | crates/connectors-sdk/src/http.rs:150-325 | At most max(1, max_attempts) requests and fewer waits than that; one fewer than requests unless cancelled |
| HttpRetry.SucceedsExactly | crates/connectors-sdk/src/http.rs:150-325 | A success is returned if and only if some round within the budget brings one and every earlier round is retried |
| HttpRetry.NeverReturnsRetriable | crates/connectors-sdk/src/http.rs:192-256 | A response handed back is not of a retriable status; exhaustion is reported only when the budget is spent or the request was not worth repeating |
| HttpRetry.PlainBackoffNeverOverflows | crates/connectors-sdk/src/http.rs:354-371 | The shift fits 32 bits and the saturation is under the cap: the wait is the doubled base or the cap |
| HttpRetry.PlainBackoffDoubles | crates/connectors-sdk/src/http.rs:354-371 | Each attempt doubles the wait up to the cap, for sixteen attempts |
| HttpRetry.PlainBackoffIsMonotone | crates/connectors-sdk/src/http.rs:354-371 | The unjittered wait never shrinks with the attempt |
| HttpRetry.JitterIsBounded | crates/connectors-sdk/src/http.rs:373-383 | A jittered wait is within the clamped fraction of the plain one |
| HttpRetry.WaitIsBounded | crates/connectors-sdk/src/http.rs:345-383 | A wait the server set is honoured up to five minutes; no wait exceeds max(300 s, max_backoff x (1 + jitter)) |
| HttpRetry.TotalWaitIsBounded | crates/connectors-sdk/src/http.rs:150-383 | All waits of a call together stay under the budget times the ceiling |

## Left out

- Fan-out over connectors, its semaphore and the split of results: one wait before the cancel check; the order in which sources answer is the order of the event list, which is arbitrary.
- collect_mr_artifacts: the merge-request index is an input of the pipeline; "latest event wins" in its comment is the last in list order in the code.
- How an event is matched to the person's identities (EndToEnd filters by an arbitrary predicate), sync-issue sections and the empty-day section of render.rs: settled by reading one branch.
- Task panics, dropped start futures, progress and log channels and the trigger field of a run.
- The opportunistic retention sweep after a run, its settings row and its deletes; only its debounce is modelled, and its counter is unbounded.
- RunTheorems.CleanKeyEndsTerminal: says nothing for a key with a failed write, because the code leaves such rows to the next startup.
- Ids that the code hashes or draws (run ids, artifact ids, bullet ids) are order numbers or the tuples they are hashed from; hash collisions are not modelled. Groups that tie up to the id compare by those tuples.
- Strings are sequences of bytes, one `char` each; a path compares as its text, where the standard library compares components (`a//b` and `a/b` are one path there).
- A repository path that equals the sentinel text of another group, on 1 January 1970, would merge with it; the model keeps the two apart.
- A day prints as its number where the code prints an ISO date; only injectivity and the alphabet (digits and hyphens) of that text are used.
- The library sort is a stable insertion sort function; the candidate index of the transition pass holds events where the code holds references.
- The fallback of meeting bounds to the current time for a meeting without events: such a group is never synthesized.
- Bullet text is an input per group and event; the reason line of evidence and the escaping of templates are not modelled.
- OAuthAuth.RefreshIfExpired: granted scopes, the form fields of the request and error messages are not modelled; a drop of the future during a request counts as a lost reply, during the write as a write that may or may not have landed.
- HttpRetry.Send: rounding of a jittered wait, a jitter fraction that is not a number and a jittered wait over the largest duration are not modelled; a host name in an error message is not either.
- The scheduler, the markdown sink, save.rs, the registries, connectors, keychain back-ends and the desktop shell.
