/** What a run's token and row tell about the steps taken, over every behavior. */
module RunRecords {
  import opened Basics
  import opened RunProtocol
  import opened RunInvariant
  import opened RunSchedules
  import opened RunOutcomes

  /** The step fires the token of `r` on behalf of the run that replaced it. */
  predicate FiresToken(s: State, step: Step, r: RunId) {
    step.Fire? && step.run < |s.runs| && s.runs[step.run].prior == Some(r)
  }

  /** The step marks the row of `r` as replaced, successfully. */
  predicate MarksReplaced(s: State, step: Step, r: RunId) {
    step.MarkPrior? && step.ok && step.run < |s.runs| && s.runs[step.run].prior == Some(r)
  }

  /** What the step writes into the row of `r`, which held `row`. */
  function RowAfter(s: State, step: Step, r: RunId, row: Row): Row {
    if step == Insert(r, true) then Running
    else if row != Running then row
    else if step == MarkUser(r, true) then CancelledByUser
    else if step == Finish(r, true) then RowCompleted
    else if step == MarkFailed(r, true) then RowFailed
    else if MarksReplaced(s, step, r) then SupersededBy(step.run)
    else row
  }

  /** What a step does to the token and the row of `r`, from `s` to `t`. */
  ghost predicate RecordStep(s: State, t: State, step: Step, r: RunId) {
    && |s.runs| <= |t.runs|
    && (step == Insert(r, true) ==> r < |s.runs| && s.runs[r].row == NoRow)
    && (step == UserCancel(r) || FiresToken(s, step, r) ==> r < |s.runs|)
    && (r < |s.runs| ==>
          && t.runs[r].userFired == (s.runs[r].userFired || step == UserCancel(r))
          && t.runs[r].superFired == (s.runs[r].superFired || FiresToken(s, step, r))
          && t.runs[r].row == RowAfter(s, step, r, s.runs[r].row))
    && (|s.runs| <= r < |t.runs| ==> !t.runs[r].userFired && !t.runs[r].superFired && t.runs[r].row == NoRow)
  }

  /** What a plain step does to the record of its own run. */
  ghost predicate OwnRecord(s: State, step: Step, was: Run, now: Run)
    requires !step.Start?
  {
    && now.userFired == (was.userFired || step.UserCancel?)
    && now.superFired == was.superFired
    && now.row == RowAfter(s, step, step.run, was.row)
    && (step == Insert(step.run, true) ==> was.row == NoRow)
  }

  lemma WriteRecords(s: State, step: Step)
    requires Enabled(s, step) && (step.MarkUser? || step.Finish? || step.MarkFailed?)
    ensures OwnRecord(s, step, s.runs[step.run], Apply(s, step).runs[step.run])
  {
  }

  lemma InsertRecords(s: State, step: Step)
    requires Enabled(s, step) && step.Insert? && OwnOk(s.runs[step.run])
    ensures OwnRecord(s, step, s.runs[step.run], Apply(s, step).runs[step.run])
  {
  }

  lemma SilentStepRecords(s: State, step: Step)
    requires Enabled(s, step)
    requires step.UserCancel? || step.Check? || step.Store? || step.Render? || step.InsertDraft?
    ensures OwnRecord(s, step, s.runs[step.run], Apply(s, step).runs[step.run])
  {
  }

  lemma PlainStepRecords(s: State, step: Step, r: RunId)
    requires Inv(s) && Enabled(s, step) && Plain(step)
    ensures RecordStep(s, Apply(s, step), step, r)
  {
    assert RunOk(s, step.run);
    PlainStepIsLocal(s, step);
    if step.MarkUser? || step.Finish? || step.MarkFailed? {
      WriteRecords(s, step);
    } else if step.Insert? {
      InsertRecords(s, step);
    } else {
      SilentStepRecords(s, step);
    }
    OwnRecordIsAll(s, Apply(s, step), step, r);
  }

  lemma OwnRecordIsAll(s: State, t: State, step: Step, r: RunId)
    requires Plain(step) && step.run < |s.runs| && |t.runs| == |s.runs|
    requires t.runs == s.runs[step.run := t.runs[step.run]]
    requires OwnRecord(s, step, s.runs[step.run], t.runs[step.run])
    ensures RecordStep(s, t, step, r)
  {
  }

  lemma FireRecords(s: State, step: Step, r: RunId)
    requires Enabled(s, step) && step.Fire?
    ensures RecordStep(s, Apply(s, step), step, r)
  {
  }

  lemma MarkRecords(s: State, step: Step, r: RunId)
    requires Enabled(s, step) && step.MarkPrior?
    ensures RecordStep(s, Apply(s, step), step, r)
  {
  }

  lemma StartRecords(s: State, step: Step, r: RunId)
    requires Enabled(s, step) && step.Start?
    ensures RecordStep(s, Apply(s, step), step, r)
  {
  }

  lemma EveryStepRecords(s: State, step: Step, r: RunId)
    requires Inv(s) && Enabled(s, step)
    ensures RecordStep(s, Apply(s, step), step, r)
  {
    if step.Start? {
      StartRecords(s, step, r);
    } else if step.Fire? {
      FireRecords(s, step, r);
    } else if step.MarkPrior? {
      MarkRecords(s, step, r);
    } else if Plain(step) {
      PlainStepRecords(s, step, r);
    } else {
      LookingRecords(s, step, r);
    }
  }

  lemma LookingRecords(s: State, step: Step, r: RunId)
    requires Enabled(s, step) && (step.ReadSlot? || step.Guard? || step.Evict? || step.Drop?)
    ensures RecordStep(s, Apply(s, step), step, r)
  {
  }

  ghost predicate RecordSteps(states: seq<State>, steps: seq<Step>, r: RunId) {
    |states| == |steps| + 1 && states[0].runs == []
    && forall j :: 0 <= j < |steps| ==> RecordStep(states[j], states[j + 1], steps[j], r)
  }

  lemma BehaviorRecords(states: seq<State>, steps: seq<Step>, r: RunId)
    requires Behavior(states, steps)
    ensures RecordSteps(states, steps, r)
  {
    forall j | 0 <= j < |steps| ensures RecordStep(states[j], states[j + 1], steps[j], r) {
      ReachableInv(states, steps, j);
      EveryStepRecords(states[j], steps[j], r);
    }
  }

  // ---- tokens ----

  predicate UserFired(s: State, r: RunId) { r < |s.runs| && s.runs[r].userFired }

  predicate SuperFired(s: State, r: RunId) { r < |s.runs| && s.runs[r].superFired }

  /** A token counts as fired by the user exactly when a user cancel of the run came, and
      by a superseder exactly when a run whose prior it is took its fire step. */
  lemma FiredExactly(states: seq<State>, steps: seq<Step>, i: nat, r: RunId)
    requires Behavior(states, steps) && i < |states|
    ensures UserFired(states[i], r) <==> exists j :: 0 <= j < i && steps[j] == UserCancel(r)
    ensures SuperFired(states[i], r) <==> exists j :: 0 <= j < i && FiresToken(states[j], steps[j], r)
  {
    BehaviorRecords(states, steps, r);
    UserFiredOfSteps(states, steps, i, r);
    SuperFiredOfSteps(states, steps, i, r);
  }

  lemma UserFiredOfSteps(states: seq<State>, steps: seq<Step>, i: nat, r: RunId)
    requires RecordSteps(states, steps, r) && i < |states|
    ensures UserFired(states[i], r) <==> exists j :: 0 <= j < i && steps[j] == UserCancel(r)
  {
    var (fact, cause) := ((s: State) => UserFired(s, r), (s: State, step: Step) => step == UserCancel(r));
    forall j | 0 <= j < |steps| ensures fact(states[j + 1]) <==> fact(states[j]) || cause(states[j], steps[j]) {
      UserFiredMoves(states[j], states[j + 1], steps[j], r);
    }
    MovedExactly(states, steps, i, fact, cause);
  }

  lemma UserFiredMoves(s: State, t: State, step: Step, r: RunId)
    requires RecordStep(s, t, step, r)
    ensures UserFired(t, r) <==> UserFired(s, r) || step == UserCancel(r)
  {
  }

  lemma SuperFiredOfSteps(states: seq<State>, steps: seq<Step>, i: nat, r: RunId)
    requires RecordSteps(states, steps, r) && i < |states|
    ensures SuperFired(states[i], r) <==> exists j :: 0 <= j < i && FiresToken(states[j], steps[j], r)
  {
    var (fact, cause) := ((s: State) => SuperFired(s, r), (s: State, step: Step) => FiresToken(s, step, r));
    forall j | 0 <= j < |steps| ensures fact(states[j + 1]) <==> fact(states[j]) || cause(states[j], steps[j]) {
      SuperFiredMoves(states[j], states[j + 1], steps[j], r);
    }
    MovedExactly(states, steps, i, fact, cause);
  }

  lemma SuperFiredMoves(s: State, t: State, step: Step, r: RunId)
    requires RecordStep(s, t, step, r)
    ensures SuperFired(t, r) <==> SuperFired(s, r) || FiresToken(s, step, r)
  {
  }

  // ---- rows ----

  predicate Reads(s: State, r: RunId, row: Row) { r < |s.runs| && s.runs[r].row == row }

  /** The step turns a row that reads `Running` into the given terminal one. */
  predicate Turns(s: State, step: Step, r: RunId, row: Row) {
    Reads(s, r, Running) &&
    match row
    case CancelledByUser => step == MarkUser(r, true)
    case RowCompleted => step == Finish(r, true)
    case RowFailed => step == MarkFailed(r, true)
    case SupersededBy(n) => step == MarkPrior(n, true) && n < |s.runs| && s.runs[n].prior == Some(r)
    case _ => false
  }

  lemma RowMoves(s: State, t: State, step: Step, r: RunId, row: Row)
    requires RecordStep(s, t, step, r) && row.Terminal()
    ensures Reads(t, r, row) <==> Reads(s, r, row) || Turns(s, step, r, row)
  {
  }

  /** What a terminal row says is what the one write that found it running wrote: the
      run's own mark of a user cancel, of its completion or of its failure, or the mark
      of the run named there. */
  lemma RowTellsItsWrite(states: seq<State>, steps: seq<Step>, i: nat, r: RunId, row: Row)
    requires Behavior(states, steps) && i < |states| && row.Terminal()
    ensures Reads(states[i], r, row) <==> exists j :: 0 <= j < i && Turns(states[j], steps[j], r, row)
  {
    BehaviorRecords(states, steps, r);
    RowOfSteps(states, steps, i, r, row);
  }

  lemma RowOfSteps(states: seq<State>, steps: seq<Step>, i: nat, r: RunId, row: Row)
    requires RecordSteps(states, steps, r) && i < |states| && row.Terminal()
    ensures Reads(states[i], r, row) <==> exists j :: 0 <= j < i && Turns(states[j], steps[j], r, row)
  {
    var (fact, cause) := ((s: State) => Reads(s, r, row), (s: State, step: Step) => Turns(s, step, r, row));
    forall j | 0 <= j < |steps| ensures fact(states[j + 1]) <==> fact(states[j]) || cause(states[j], steps[j]) {
      RowMoves(states[j], states[j + 1], steps[j], r, row);
    }
    MovedExactly(states, steps, i, fact, cause);
  }

  predicate HasRow(s: State, r: RunId) { r < |s.runs| && s.runs[r].row != NoRow }

  /** A run has a row exactly when its insert succeeded. */
  lemma RowExistsExactly(states: seq<State>, steps: seq<Step>, i: nat, r: RunId)
    requires Behavior(states, steps) && i < |states|
    ensures HasRow(states[i], r) <==> exists j :: 0 <= j < i && steps[j] == Insert(r, true)
  {
    BehaviorRecords(states, steps, r);
    HasRowOfSteps(states, steps, i, r);
  }

  lemma HasRowOfSteps(states: seq<State>, steps: seq<Step>, i: nat, r: RunId)
    requires RecordSteps(states, steps, r) && i < |states|
    ensures HasRow(states[i], r) <==> exists j :: 0 <= j < i && steps[j] == Insert(r, true)
  {
    var (fact, cause) := ((s: State) => HasRow(s, r), (s: State, step: Step) => step == Insert(r, true));
    forall j | 0 <= j < |steps| ensures fact(states[j + 1]) <==> fact(states[j]) || cause(states[j], steps[j]) {
      HasRowMoves(states[j], states[j + 1], steps[j], r);
    }
    MovedExactly(states, steps, i, fact, cause);
  }

  lemma HasRowMoves(s: State, t: State, step: Step, r: RunId)
    requires RecordStep(s, t, step, r)
    ensures HasRow(t, r) <==> HasRow(s, r) || step == Insert(r, true)
  {
  }

  /** A plain user cancel: the user fires the token before the cancel check, no superseder
      fires it, the run finds nobody else in its slot, and its mark is written. Then it
      ends as cancelled by the user, in its outcome and in its row, without a draft. */
  lemma PlainUserCancel(states: seq<State>, steps: seq<Step>, u: nat, c: nat, i: nat, r: RunId)
    requires Behavior(states, steps) && u < c < i < |states| && steps[u] == UserCancel(r) && steps[c] == Check(r)
    requires r < |states[i].runs| && states[i].runs[r].pc.Ended?
    requires forall j :: 0 <= j < i ==> !FiresToken(states[j], steps[j], r) && steps[j] != MarkUser(r, false)
    requires !HasSeenOther(states, steps, i, r)
    ensures states[i].runs[r].pc == Ended(Cancelled(None)) && states[i].runs[r].row == CancelledByUser
    ensures !states[i].runs[r].draft
  {
    FiredExactly(states, steps, c, r);
    FiredExactly(states, steps, i, r);
    UserCancelIsRecorded(states, steps, c, i, r);
  }
}
