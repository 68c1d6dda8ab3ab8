/** The generate-run protocol: any number of `start_with_trigger` calls, their
    background tasks and user cancels, interleaved one shared action at a time.

    An action is one lock acquisition on the in-flight map, one token fire, one
    row write or one draft write. A run id is drawn when its entry is swapped
    into the map, so ids are numbered by swap order: a larger id of the same
    key swapped in later. `successor` and `markMissed` and the `History` sets record
    what has happened; no action reads them. */
module RunProtocol {
  import opened Basics

  type RunId = nat

  datatype Key = Key(person: nat, date: int, template: string)

  /** What the database holds for a run. */
  datatype Row =
    | NoRow
    | Running
    | RowCompleted
    | RowFailed
    | CancelledByUser
    | SupersededBy(run: RunId)
  {
    predicate Terminal() { this != NoRow && this != Running }
  }

  /** What the run's completion future resolves to. */
  datatype Outcome = Completed | Failed | Cancelled(newer: Option<RunId>)

  /** The next action of a run: first the starting call, then its background part. */
  datatype Pc =
    | Firing
    | Inserting
    | Evicting
    | Marking
    | Checking
    | ReadingSlot
    | MarkingUser
    | Storing
    | Rendering
    | Guarding
    | Drafting
    | Finishing
    | MarkingFailed
    | Dropping(outcome: Outcome)
    | Ended(outcome: Outcome)

  datatype Run = Run(
    key: Key,
    prior: Option<RunId>,
    pc: Pc,
    userFired: bool,
    superFired: bool,
    row: Row,
    draft: bool,
    successor: Option<RunId>,
    markMissed: bool)
  {
    predicate Fired() { userFired || superFired }
    predicate Live() { !pc.Ended? }
    predicate Starting() { pc.Firing? || pc.Inserting? || pc.Evicting? || pc.Marking? }
  }

  /** Keys for which an insert failed, another write failed, or a start began
      while an earlier start of the same key was still in progress. */
  datatype History = History(insertFailed: set<Key>, writeFailed: set<Key>, overlapped: set<Key>)

  datatype State = State(runs: seq<Run>, slots: map<Key, RunId>, hist: History)

  const INITIAL := State([], map[], History({}, {}, {}))

  datatype Step =
    | Start(key: Key)
    | Fire(run: RunId)
    | Insert(run: RunId, ok: bool)
    | Evict(run: RunId)
    | MarkPrior(run: RunId, ok: bool)
    | Check(run: RunId)
    | ReadSlot(run: RunId)
    | MarkUser(run: RunId, ok: bool)
    | Store(run: RunId, ok: bool)
    | Render(run: RunId, ok: bool)
    | Guard(run: RunId)
    | InsertDraft(run: RunId, ok: bool)
    | Finish(run: RunId, ok: bool)
    | MarkFailed(run: RunId, ok: bool)
    | Drop(run: RunId)
    | UserCancel(run: RunId)

  // ---- the map operations ----

  function SlotOf(slots: map<Key, RunId>, key: Key): Option<RunId> {
    if key in slots then Some(slots[key]) else None
  }

  function Swapped(slots: map<Key, RunId>, key: Key, run: RunId): map<Key, RunId> {
    slots[key := run]
  }

  /** The run that holds the slot, when it is not `run`. */
  function SupersededByNow(slots: map<Key, RunId>, key: Key, run: RunId): Option<RunId> {
    if key in slots && slots[key] != run then Some(slots[key]) else None
  }

  function Dropped(slots: map<Key, RunId>, key: Key, run: RunId): map<Key, RunId> {
    if key in slots && slots[key] == run then slots - {key} else slots
  }

  /** The repository's rule: a row leaves `Running` or is left alone. */
  function Transition(row: Row, to: Row): Row {
    if row.Running? then to else row
  }

  // ---- the step relation ----

  function PcOf(step: Step): Pc
    requires !step.Start? && !step.UserCancel? && !step.Drop?
  {
    match step
    case Fire(_) => Firing
    case Insert(_, _) => Inserting
    case Evict(_) => Evicting
    case MarkPrior(_, _) => Marking
    case Check(_) => Checking
    case ReadSlot(_) => ReadingSlot
    case MarkUser(_, _) => MarkingUser
    case Store(_, _) => Storing
    case Render(_, _) => Rendering
    case Guard(_) => Guarding
    case InsertDraft(_, _) => Drafting
    case Finish(_, _) => Finishing
    case MarkFailed(_, _) => MarkingFailed
  }

  /** A user can reach a token through the map while the slot names the run,
      and through the returned handle once the starting call is over. */
  predicate Enabled(s: State, step: Step) {
    match step
    case Start(_) => true
    case UserCancel(r) =>
      r < |s.runs| && (SlotOf(s.slots, s.runs[r].key) == Some(r) || !s.runs[r].Starting())
    case Drop(r) => r < |s.runs| && s.runs[r].pc.Dropping?
    case Fire(r) => r < |s.runs| && s.runs[r].pc == Firing && PriorOk(s, r)
    case MarkPrior(r, _) => r < |s.runs| && s.runs[r].pc == Marking && PriorOk(s, r)
    case _ => step.run < |s.runs| && s.runs[step.run].pc == PcOf(step)
  }

  predicate PriorOk(s: State, r: RunId)
    requires r < |s.runs|
  {
    s.runs[r].prior.Some? && s.runs[r].prior.value < r
  }

  predicate StartInProgress(s: State, key: Key) {
    exists r :: 0 <= r < |s.runs| && s.runs[r].key == key && s.runs[r].Starting()
  }

  function AfterMap(s: State, r: RunId, run: Run, slots: map<Key, RunId>): State
    requires r < |s.runs|
  {
    s.(runs := s.runs[r := run], slots := slots)
  }

  function Next(s: State, r: RunId, run: Run): State
    requires r < |s.runs|
  {
    s.(runs := s.runs[r := run])
  }

  function NoteWrite(s: State, key: Key, ok: bool): State {
    if ok then s else s.(hist := s.hist.(writeFailed := s.hist.writeFailed + {key}))
  }

  function ApplyStart(s: State, key: Key): State {
    var prior := SlotOf(s.slots, key);
    var entrant := Run(key, prior, if prior.Some? then Firing else Inserting, false, false, NoRow, false, None, false);
    var runs :=
      if prior.Some? && prior.value < |s.runs|
      then s.runs[prior.value := s.runs[prior.value].(successor := Some(|s.runs|))]
      else s.runs;
    var hist := if StartInProgress(s, key) then s.hist.(overlapped := s.hist.overlapped + {key}) else s.hist;
    State(runs + [entrant], Swapped(s.slots, key, |s.runs|), hist)
  }

  function ApplyFire(s: State, r: RunId): State
    requires r < |s.runs| && PriorOk(s, r)
  {
    var p := s.runs[r].prior.value;
    Next(Next(s, p, s.runs[p].(superFired := true)), r, s.runs[r].(pc := Inserting))
  }

  function ApplyInsert(s: State, r: RunId, ok: bool): State
    requires r < |s.runs|
  {
    var run := s.runs[r];
    if ok then
      Next(s, r, run.(row := Running, pc := if run.prior.Some? then Marking else Checking))
    else
      Next(s, r, run.(pc := Evicting)).(hist := s.hist.(insertFailed := s.hist.insertFailed + {run.key}))
  }

  /** The new row exists by now, so the foreign key on `superseded_by` holds. */
  function ApplyMarkPrior(s: State, r: RunId, ok: bool): State
    requires r < |s.runs| && PriorOk(s, r)
  {
    var p := s.runs[r].prior.value;
    var prior := s.runs[p];
    var marked :=
      if !ok then prior
      else prior.(row := Transition(prior.row, SupersededBy(r)), markMissed := prior.markMissed || prior.row.NoRow?);
    NoteWrite(Next(Next(s, p, marked), r, s.runs[r].(pc := Checking)), s.runs[r].key, ok)
  }

  function Apply(s: State, step: Step): State
    requires Enabled(s, step)
  {
    match step
    case Start(key) => ApplyStart(s, key)
    case Fire(r) => ApplyFire(s, r)
    case Insert(r, ok) => ApplyInsert(s, r, ok)
    case Evict(r) =>
      AfterMap(s, r, s.runs[r].(pc := Ended(Failed)), s.slots - {s.runs[r].key})
    case MarkPrior(r, ok) => ApplyMarkPrior(s, r, ok)
    case Check(r) =>
      Next(s, r, s.runs[r].(pc := if s.runs[r].Fired() then ReadingSlot else Storing))
    case ReadSlot(r) =>
      var seen := SupersededByNow(s.slots, s.runs[r].key, r);
      Next(s, r, s.runs[r].(pc := if seen.Some? then Dropping(Cancelled(seen)) else MarkingUser))
    case MarkUser(r, ok) =>
      var run := s.runs[r];
      var row := if ok then Transition(run.row, CancelledByUser) else run.row;
      NoteWrite(Next(s, r, run.(row := row, pc := Dropping(Cancelled(None)))), run.key, ok)
    case Store(r, ok) =>
      NoteWrite(Next(s, r, s.runs[r].(pc := if ok then Rendering else MarkingFailed)), s.runs[r].key, ok)
    case Render(r, ok) =>
      Next(s, r, s.runs[r].(pc := if ok then Guarding else MarkingFailed))
    case Guard(r) =>
      var seen := SupersededByNow(s.slots, s.runs[r].key, r);
      Next(s, r, s.runs[r].(pc := if seen.Some? then Ended(Cancelled(seen)) else Drafting))
    case InsertDraft(r, ok) =>
      var run := s.runs[r];
      NoteWrite(Next(s, r, if ok then run.(draft := true, pc := Finishing) else run.(pc := MarkingFailed)), run.key, ok)
    case Finish(r, ok) =>
      var run := s.runs[r];
      var row := if ok then Transition(run.row, RowCompleted) else run.row;
      NoteWrite(Next(s, r, run.(row := row, pc := Dropping(Completed))), run.key, ok)
    case MarkFailed(r, ok) =>
      var run := s.runs[r];
      var row := if ok then Transition(run.row, RowFailed) else run.row;
      NoteWrite(Next(s, r, run.(row := row, pc := Dropping(Failed))), run.key, ok)
    case Drop(r) =>
      var run := s.runs[r];
      AfterMap(s, r, run.(pc := Ended(run.pc.outcome)), Dropped(s.slots, run.key, r))
    case UserCancel(r) => Next(s, r, s.runs[r].(userFired := true))
  }

  /** A finite run of the whole system: every state and the step between. */
  ghost predicate Behavior(states: seq<State>, steps: seq<Step>) {
    && |states| == |steps| + 1
    && states[0] == INITIAL
    && forall i :: 0 <= i < |steps| ==> Enabled(states[i], steps[i]) && states[i + 1] == Apply(states[i], steps[i])
  }
}
