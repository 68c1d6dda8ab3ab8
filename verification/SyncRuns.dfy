/** The `sync_runs` table behind its repository, and the crash recovery that
    startup runs on it. Timestamps are plain integers. */
module SyncRuns {
  import opened Basics
  import P = RunProtocol

  type RunId = P.RunId

  datatype Status = Running | Completed | Cancelled | Failed

  datatype CancelReason = User | SupersededBy(run: RunId)

  datatype SourceStatus = SourcePending | SourceRunning | Succeeded | SourceFailed | Skipped

  datatype PerSource = PerSource(
    sourceId: nat,
    status: SourceStatus,
    startedAt: int,
    finishedAt: Option<int>,
    fetched: nat,
    error: Option<string>)

  datatype SyncRun = SyncRun(
    startedAt: int,
    finishedAt: Option<int>,
    status: Status,
    cancelReason: Option<CancelReason>,
    supersededBy: Option<RunId>,
    perSource: seq<PerSource>)

  type Rows = map<RunId, SyncRun>

  datatype DbError = NotRunning | AlreadyFinished | Duplicate | ForeignKey | Missing | IllegalTransition

  const RESTARTED := "process restarted before this source finished"

  /** The row a run has, as the run protocol sees it. */
  function View(rows: Rows, id: RunId): P.Row {
    if id !in rows then P.NoRow
    else match rows[id].status
      case Running => P.Running
      case Completed => P.RowCompleted
      case Failed => P.RowFailed
      case Cancelled => if rows[id].supersededBy.Some? then P.SupersededBy(rows[id].supersededBy.value)
        else P.CancelledByUser
  }

  /** What the table's columns always agree on. */
  ghost predicate RowsOk(rows: Rows) {
    forall id :: id in rows ==>
      && (rows[id].status == Running <==> rows[id].finishedAt.None?)
      && (rows[id].status == Cancelled <==> rows[id].cancelReason.Some?)
      && (rows[id].supersededBy.Some? ==> rows[id].supersededBy.value in rows)
      && rows[id].supersededBy ==
           (match rows[id].cancelReason
            case Some(SupersededBy(run)) => Some(run)
            case _ => None)
  }

  class SyncRunRepo {
    var rows: Rows

    constructor ()
      ensures rows == map[]
    {
      rows := map[];
    }

    method Insert(id: RunId, run: SyncRun) returns (err: Option<DbError>)
      modifies this
      ensures err.Some? ==> rows == old(rows)
      ensures err.None? ==> rows == old(rows)[id := run] && id !in old(rows) && View(rows, id) == P.Running
      ensures err.None? <==>
        run.status == Running && run.finishedAt.None? && id !in old(rows)
        && (run.supersededBy.Some? ==> run.supersededBy.value in old(rows) || run.supersededBy.value == id)
      ensures old(RowsOk(rows)) && run.cancelReason.None? && run.supersededBy.None? ==> RowsOk(rows)
    {
      if run.status != Running { return Some(NotRunning); }
      if run.finishedAt.Some? { return Some(AlreadyFinished); }
      if id in rows { return Some(Duplicate); }
      if run.supersededBy.Some? && run.supersededBy.value !in rows && run.supersededBy.value != id {
        return Some(ForeignKey);
      }
      rows := rows[id := run];
      err := None;
    }

    /** One conditional update: a row leaves `Running` or nothing is written. */
    method Transition(id: RunId, to: Status, finishedAt: int, reason: Option<CancelReason>, perSource: seq<PerSource>)
      returns (err: Option<DbError>)
      requires to != Running && (to == Cancelled <==> reason.Some?)
      modifies this
      ensures err.None? <==>
        id in old(rows) && old(rows)[id].status == Running
          && (reason.Some? && reason.value.SupersededBy? ==> reason.value.run in old(rows))
      ensures err.Some? ==> rows == old(rows)
      ensures err.None? ==> rows == old(rows)[id := FinishedRow(old(rows)[id], to, finishedAt, reason, perSource)]
      ensures err.None? ==>
        var row := rows[id];
        && row.startedAt == old(rows)[id].startedAt && row.finishedAt == Some(finishedAt) && row.status == to
        && row.cancelReason == reason && row.perSource == perSource
        && row.supersededBy == match reason case Some(SupersededBy(run)) => Some(run) case _ => None
      ensures err != Some(ForeignKey) ==> View(rows, id) == P.Transition(View(old(rows), id), Target(to, reason))
      ensures old(RowsOk(rows)) ==> RowsOk(rows)
    {
      if id in rows && rows[id].status == Running {
        var finished := FinishedRow(rows[id], to, finishedAt, reason, perSource);
        if finished.supersededBy.Some? && finished.supersededBy.value !in rows { return Some(ForeignKey); }
        rows := rows[id := finished];
        return None;
      }
      err := if id !in rows then Some(Missing) else Some(IllegalTransition);
    }

    /** Every row still `Running` without a finish time, oldest first. */
    method ListRunning() returns (ids: seq<RunId>)
      ensures forall i :: 0 <= i < |ids| ==> ids[i] in rows && Crashed(rows[ids[i]])
      ensures forall id :: id in rows && Crashed(rows[id]) ==> id in ids
      ensures forall i, j :: 0 <= i < j < |ids| ==> ids[i] != ids[j] && rows[ids[i]].startedAt <= rows[ids[j]].startedAt
    {
      ids := [];
      var left := set id | id in rows && Crashed(rows[id]);
      while left != {}
        invariant left <= rows.Keys
        invariant forall i :: 0 <= i < |ids| ==> ids[i] in rows && ids[i] !in left && Crashed(rows[ids[i]])
        invariant forall id :: id in rows && Crashed(rows[id]) ==> id in ids || id in left
        invariant forall id :: id in left ==> Crashed(rows[id])
        invariant forall i, j :: 0 <= i < j < |ids| ==>
          ids[i] != ids[j] && rows[ids[i]].startedAt <= rows[ids[j]].startedAt
        invariant forall i, id :: 0 <= i < |ids| && id in left ==> rows[ids[i]].startedAt <= rows[id].startedAt
        decreases left
      {
        var oldest := Oldest(left);
        ids := ids + [oldest];
        left := left - {oldest};
      }
    }

    method Oldest(ids: set<RunId>) returns (oldest: RunId)
      requires ids != {} && ids <= rows.Keys
      ensures oldest in ids && forall id :: id in ids ==> rows[oldest].startedAt <= rows[id].startedAt
    {
      oldest :| oldest in ids;
      var left := ids - {oldest};
      while left != {}
        invariant oldest in ids && left <= ids
        invariant forall id :: id in ids && id !in left ==> rows[oldest].startedAt <= rows[id].startedAt
        decreases left
      {
        var id :| id in left;
        if rows[id].startedAt < rows[oldest].startedAt { oldest := id; }
        left := left - {id};
      }
    }

    /** Rewrite every crashed row to `Failed`; the ids in `failing` are those whose
        write the database refuses, at the first of which the sweep gives up, as it
        does when the listing itself fails. */
    method RecoverCrashedRuns(now: int, listFails: bool, failing: set<RunId>) returns (recovered: Option<nat>)
      modifies this
      ensures recovered.Some? <==>
        !listFails && forall id :: id in old(rows) && Crashed(old(rows)[id]) ==> id !in failing
      ensures listFails ==> rows == old(rows)
      ensures recovered.Some? ==> rows == Recovered(old(rows), now) && recovered.value == |CrashedIds(old(rows))|
      ensures rows.Keys == old(rows).Keys
      ensures forall id :: id in rows ==> rows[id] == old(rows)[id] || rows[id] == Recovered(old(rows), now)[id]
    {
      if listFails { return None; }
      var ids := ListRunning();
      ghost var was := rows;
      var count: nat := 0;
      while count < |ids|
        invariant count <= |ids|
        invariant rows == Partly(was, ids[..count], now)
        invariant forall i :: 0 <= i < count ==> ids[i] !in failing
      {
        if ids[count] in failing { return None; }
        RecoverOne(now, was, ids, count);
        count := count + 1;
      }
      assert ids[..count] == ids;
      DistinctCount(ids, CrashedIds(was));
      recovered := Some(count);
    }

    /** Rewrite the next crashed row. */
    method RecoverOne(now: int, ghost was: Rows, ids: seq<RunId>, count: nat)
      requires count < |ids| && ids[count] !in ids[..count]
      requires rows == Partly(was, ids[..count], now) && ids[count] in was && Crashed(was[ids[count]])
      modifies this
      ensures rows == Partly(was, ids[..count + 1], now)
    {
      var id := ids[count];
      var err := Transition(id, Failed, now, None, RemapPerSource(rows[id].perSource, now));
      assert ids[..count + 1] == ids[..count] + [id];
      assert rows[id] == RecoveredRow(was[id], now);
    }
  }

  function FinishedRow(run: SyncRun, to: Status, finishedAt: int, reason: Option<CancelReason>,
                       perSource: seq<PerSource>): SyncRun {
    var supersededBy := if reason.Some? && reason.value.SupersededBy? then Some(reason.value.run) else None;
    SyncRun(run.startedAt, Some(finishedAt), to, reason, supersededBy, perSource)
  }

  function Target(to: Status, reason: Option<CancelReason>): P.Row
    requires to != Running && (to == Cancelled <==> reason.Some?)
  {
    match to
    case Completed => P.RowCompleted
    case Failed => P.RowFailed
    case Cancelled =>
      (match reason.value
       case User => P.CancelledByUser
       case SupersededBy(run) => P.SupersededBy(run))
  }

  // ---- crash recovery ----

  predicate Crashed(run: SyncRun) { run.status == Running && run.finishedAt.None? }

  function CrashedIds(rows: Rows): set<RunId> {
    set id | id in rows && Crashed(rows[id])
  }

  function RemapSource(state: PerSource, now: int): PerSource {
    if state.status.SourcePending? || state.status.SourceRunning?
    then PerSource(state.sourceId, SourceFailed, state.startedAt, Some(now), state.fetched, Some(RESTARTED))
    else state
  }

  function RemapPerSource(states: seq<PerSource>, now: int): (r: seq<PerSource>)
    ensures |r| == |states|
    ensures forall i :: 0 <= i < |r| ==>
      && r[i].sourceId == states[i].sourceId && r[i].fetched == states[i].fetched
      && !r[i].status.SourcePending? && !r[i].status.SourceRunning?
      && (r[i] != states[i] ==> r[i].status.SourceFailed? && r[i].error == Some(RESTARTED))
  {
    seq(|states|, i requires 0 <= i < |states| => RemapSource(states[i], now))
  }

  function RecoveredRow(run: SyncRun, now: int): SyncRun {
    if Crashed(run)
    then SyncRun(run.startedAt, Some(now), Failed, None, None, RemapPerSource(run.perSource, now))
    else run
  }

  /** The table after a recovery in which every write succeeds. */
  function Recovered(rows: Rows, now: int): Rows {
    map id | id in rows :: RecoveredRow(rows[id], now)
  }

  /** The table after the recovery of the rows in `ids`. */
  function Partly(rows: Rows, ids: seq<RunId>, now: int): Rows {
    map id | id in rows :: if id in ids then RecoveredRow(rows[id], now) else rows[id]
  }

  lemma {:induction false} DistinctCount(ids: seq<RunId>, all: set<RunId>)
    requires forall i, j :: 0 <= i < j < |ids| ==> ids[i] != ids[j]
    requires forall id :: id in all <==> id in ids
    ensures |all| == |ids|
  {
    if ids == [] {
      assert all == {};
    } else {
      var last := ids[|ids| - 1];
      assert last !in ids[..|ids| - 1];
      DistinctCount(ids[..|ids| - 1], all - {last});
    }
  }

  /** Recovery from any table: rows that were not `Running` are untouched, and no
      row is left `Running` exactly when none had a finish time already. */
  lemma RecoveryLeavesNoRunningRow(rows: Rows, now: int)
    ensures Recovered(rows, now).Keys == rows.Keys
    ensures forall id :: id in rows && rows[id].status != Running ==> Recovered(rows, now)[id] == rows[id]
    ensures (forall id :: id in rows ==> View(Recovered(rows, now), id) != P.Running)
        <==> (forall id :: id in rows && rows[id].status == Running ==> rows[id].finishedAt.None?)
  {
    forall id | id in rows
      ensures View(Recovered(rows, now), id) == P.Running <==> rows[id].status == Running && rows[id].finishedAt.Some?
    {
    }
    if exists id :: id in rows && rows[id].status == Running && rows[id].finishedAt.Some? {
      var id :| id in rows && rows[id].status == Running && rows[id].finishedAt.Some?;
      assert View(Recovered(rows, now), id) == P.Running;
    }
  }

  /** On a table the repository wrote, recovery is the protocol's transition to
      `Failed` on every row, and a second recovery, at any time, changes nothing. */
  lemma RecoveryFailsRunningRows(rows: Rows, now: int, later: int, id: RunId)
    requires RowsOk(rows)
    ensures View(Recovered(rows, now), id) == P.Transition(View(rows, id), P.RowFailed)
    ensures RowsOk(Recovered(rows, now))
    ensures Recovered(Recovered(rows, now), later) == Recovered(rows, now)
  {
  }

  /** A crashed row fails at the instant of the recovery, and with it exactly those of
      its sources that had not finished; nothing else of it, and no other row, changes. */
  lemma RecoveredRowExactly(rows: Rows, now: int, id: RunId)
    requires id in rows
    ensures var (was, row) := (rows[id], Recovered(rows, now)[id]);
      if was.status == Running && was.finishedAt == None then
        && row.status == Failed && row.startedAt == was.startedAt && row.finishedAt == Some(now)
        && row.cancelReason == None && row.supersededBy == None && |row.perSource| == |was.perSource|
        && forall i :: 0 <= i < |row.perSource| ==> SourceRecovered(was.perSource[i], row.perSource[i], now)
      else row == was
  {
  }

  predicate SourceRecovered(was: PerSource, s: PerSource, now: int) {
    if was.status == SourcePending || was.status == SourceRunning then
      && s.status == SourceFailed && s.finishedAt == Some(now)
      && s.error == Some("process restarted before this source finished")
      && s.sourceId == was.sourceId && s.startedAt == was.startedAt && s.fetched == was.fetched
    else s == was
  }
}
