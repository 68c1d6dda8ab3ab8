/** The conditions of the run protocol's weak spots, told by the steps that
    were taken. */
module RunSchedules {
  import opened Basics
  import opened RunProtocol
  import opened RunInvariant
  import opened RunSafety
  import opened RunTheorems
  import opened RunProgress

  // ---- steps that matter later ----

  /** A superseder marks the row of `r`, successfully. */
  ghost predicate MarksRow(s: State, step: Step, r: RunId) {
    step.MarkPrior? && step.ok && step.run < |s.runs| && r < |s.runs| && s.runs[step.run].prior == Some(r)
  }

  /** It does so before `r` has inserted the row, and so to no effect. */
  ghost predicate MarksTooEarly(s: State, step: Step, r: RunId) { MarksRow(s, step, r) && s.runs[r].row == NoRow }

  ghost predicate MarksInTime(s: State, step: Step, r: RunId) { MarksRow(s, step, r) && s.runs[r].row != NoRow }

  /** The run looks at its slot and finds another run there. */
  ghost predicate SeesOther(s: State, step: Step, r: RunId) {
    (step == ReadSlot(r) || step == Guard(r)) && r < |s.runs| && SupersededByNow(s.slots, s.runs[r].key, r).Some?
  }

  ghost predicate WasMarkedTooEarly(states: seq<State>, steps: seq<Step>, i: nat, r: RunId)
    requires i < |states| == |steps| + 1
  {
    exists j :: 0 <= j < i && MarksTooEarly(states[j], steps[j], r)
  }

  ghost predicate WasMarkedInTime(states: seq<State>, steps: seq<Step>, i: nat, r: RunId)
    requires i < |states| == |steps| + 1
  {
    exists j :: 0 <= j < i && MarksInTime(states[j], steps[j], r)
  }

  ghost predicate HasSeenOther(states: seq<State>, steps: seq<Step>, i: nat, r: RunId)
    requires i < |states| == |steps| + 1
  {
    exists j :: 0 <= j < i && SeesOther(states[j], steps[j], r)
  }

  // ---- what the recorded flags stand for ----

  lemma StepMarksMissed(s: State, step: Step, r: RunId)
    requires Enabled(s, step) && r < |Apply(s, step).runs|
    ensures Apply(s, step).runs[r].markMissed <==> (r < |s.runs| && s.runs[r].markMissed) || MarksTooEarly(s, step, r)
  {
    if Plain(step) { PlainStepIsLocal(s, step); }
  }

  lemma RunsStay(s: State, step: Step)
    requires Enabled(s, step)
    ensures |s.runs| <= |Apply(s, step).runs|
  {
  }

  ghost predicate IsMarkMissed(s: State, r: RunId) { r < |s.runs| && s.runs[r].markMissed }

  lemma MarkMissedMoves(s: State, step: Step, r: RunId)
    requires Enabled(s, step)
    ensures IsMarkMissed(Apply(s, step), r) <==> IsMarkMissed(s, r) || MarksTooEarly(s, step, r)
  {
    RunsStay(s, step);
    if r < |Apply(s, step).runs| { StepMarksMissed(s, step, r); }
  }

  lemma TooEarlySnoc(states: seq<State>, steps: seq<Step>, i: nat, r: RunId)
    requires 0 < i < |states| == |steps| + 1
    ensures WasMarkedTooEarly(states, steps, i, r) <==>
      WasMarkedTooEarly(states, steps, i - 1, r) || MarksTooEarly(states[i - 1], steps[i - 1], r)
  {
  }

  lemma {:induction false} MarkMissedMeans(states: seq<State>, steps: seq<Step>, i: nat, r: RunId)
    requires Behavior(states, steps) && i < |states|
    ensures IsMarkMissed(states[i], r) <==> WasMarkedTooEarly(states, steps, i, r)
  {
    if i > 0 {
      MarkMissedMeans(states, steps, i - 1, r);
      MarkMissedMoves(states[i - 1], steps[i - 1], r);
      TooEarlySnoc(states, steps, i, r);
    }
  }

  lemma StepShowsNewer(s: State, step: Step, r: RunId)
    requires Enabled(s, step) && r < |Apply(s, step).runs|
    ensures SawNewer(Apply(s, step).runs[r]) <==> (r < |s.runs| && SawNewer(s.runs[r])) || SeesOther(s, step, r)
  {
    if Plain(step) {
      PlainStepShowsNobody(s, step, r);
    } else if step.Start? || step.Fire? || step.MarkPrior? {
      LinkingStepMovesNobody(s, step, r);
    }
  }

  lemma LinkingStepMovesNobody(s: State, step: Step, r: RunId)
    requires Enabled(s, step) && (step.Start? || step.Fire? || step.MarkPrior?) && r < |Apply(s, step).runs|
    ensures SawNewer(Apply(s, step).runs[r]) <==> r < |s.runs| && SawNewer(s.runs[r])
  {
  }

  lemma PlainStepShowsNobody(s: State, step: Step, r: RunId)
    requires Enabled(s, step) && Plain(step) && r < |s.runs|
    ensures r < |Apply(s, step).runs| && (SawNewer(Apply(s, step).runs[r]) <==> SawNewer(s.runs[r]))
  {
    PlainStepIsLocal(s, step);
  }

  ghost predicate HasSawNewer(s: State, r: RunId) { r < |s.runs| && SawNewer(s.runs[r]) }

  lemma SawNewerMoves(s: State, step: Step, r: RunId)
    requires Enabled(s, step)
    ensures HasSawNewer(Apply(s, step), r) <==> HasSawNewer(s, r) || SeesOther(s, step, r)
  {
    RunsStay(s, step);
    if r < |Apply(s, step).runs| { StepShowsNewer(s, step, r); }
  }

  lemma SeenSnoc(states: seq<State>, steps: seq<Step>, i: nat, r: RunId)
    requires 0 < i < |states| == |steps| + 1
    ensures HasSeenOther(states, steps, i, r) <==>
      HasSeenOther(states, steps, i - 1, r) || SeesOther(states[i - 1], steps[i - 1], r)
  {
  }

  lemma {:induction false} SawNewerMeans(states: seq<State>, steps: seq<Step>, i: nat, r: RunId)
    requires Behavior(states, steps) && i < |states|
    ensures HasSawNewer(states[i], r) <==> HasSeenOther(states, steps, i, r)
  {
    if i > 0 {
      SawNewerMeans(states, steps, i - 1, r);
      SawNewerMoves(states[i - 1], steps[i - 1], r);
      SeenSnoc(states, steps, i, r);
    }
  }

  /** When every run of a key has ended and no write of the key failed, a row is
      left `Running` exactly when its superseder marked it before it was inserted
      and the run later found another run in its slot. */
  lemma RowLeftRunningExactly(states: seq<State>, steps: seq<Step>, i: nat, r: RunId)
    requires Behavior(states, steps) && i < |states| && r < |states[i].runs|
    requires AllEnded(states[i], states[i].runs[r].key)
    requires states[i].runs[r].key !in states[i].hist.insertFailed + states[i].hist.writeFailed
    ensures states[i].runs[r].row == Running <==>
      WasMarkedTooEarly(states, steps, i, r) && HasSeenOther(states, steps, i, r)
    ensures states[i].runs[r].row != Running ==> states[i].runs[r].row.Terminal()
  {
    RowLeftRunningByFlags(states, steps, i, r);
    MarkMissedMeans(states, steps, i, r);
    SawNewerMeans(states, steps, i, r);
  }

  /** The run itself takes its row out of `Running`, successfully. */
  ghost predicate WritesOwnRow(s: State, step: Step, r: RunId) {
    (step == MarkUser(r, true) || step == Finish(r, true) || step == MarkFailed(r, true)) && r < |s.runs|
  }

  ghost predicate SettlesRow(s: State, step: Step, r: RunId) { MarksInTime(s, step, r) || WritesOwnRow(s, step, r) }

  ghost predicate WasSettled(states: seq<State>, steps: seq<Step>, i: nat, r: RunId)
    requires i < |states| == |steps| + 1
  {
    exists j :: 0 <= j < i && SettlesRow(states[j], steps[j], r)
  }

  lemma StepSettlesRow(s: State, step: Step, r: RunId)
    requires Inv(s) && Enabled(s, step) && r < |Apply(s, step).runs|
    ensures Apply(s, step).runs[r].row.Terminal() <==>
      (r < |s.runs| && s.runs[r].row.Terminal()) || SettlesRow(s, step, r)
  {
    if Plain(step) {
      PlainStepSettlesRow(s, step, r);
    } else if step.MarkPrior? {
      MarkSettlesRow(s, step, r);
    } else if step.Start? || step.Fire? {
      StartSettlesNoRow(s, step, r);
    } else {
      LookSettlesNoRow(s, step, r);
    }
  }

  lemma StartSettlesNoRow(s: State, step: Step, r: RunId)
    requires Enabled(s, step) && (step.Start? || step.Fire?) && r < |Apply(s, step).runs|
    ensures Apply(s, step).runs[r].row.Terminal() <==> r < |s.runs| && s.runs[r].row.Terminal()
  {
  }

  lemma LookSettlesNoRow(s: State, step: Step, r: RunId)
    requires Enabled(s, step) && (step.ReadSlot? || step.Guard? || step.Evict? || step.Drop?)
    requires r < |Apply(s, step).runs|
    ensures r < |s.runs| && Apply(s, step).runs[r].row == s.runs[r].row
  {
  }

  lemma MarkSettlesRow(s: State, step: Step, r: RunId)
    requires Enabled(s, step) && step.MarkPrior? && r < |s.runs|
    ensures r < |Apply(s, step).runs|
    ensures Apply(s, step).runs[r].row.Terminal() <==> s.runs[r].row.Terminal() || MarksInTime(s, step, r)
  {
  }

  lemma PlainStepSettlesRow(s: State, step: Step, r: RunId)
    requires Inv(s) && Enabled(s, step) && Plain(step) && r < |s.runs|
    ensures r < |Apply(s, step).runs|
    ensures Apply(s, step).runs[r].row.Terminal() <==> s.runs[r].row.Terminal() || WritesOwnRow(s, step, r)
  {
    PlainStepIsLocal(s, step);
    if r == step.run {
      assert RunOk(s, r);
      OwnStepSettlesRow(s, step);
    }
  }

  lemma OwnStepSettlesRow(s: State, step: Step)
    requires Enabled(s, step) && Plain(step) && OwnOk(s.runs[step.run])
    ensures Apply(s, step).runs[step.run].row.Terminal() <==>
      s.runs[step.run].row.Terminal() || WritesOwnRow(s, step, step.run)
  {
    if step.MarkUser? || step.Finish? || step.MarkFailed? {
      LastWriteSettlesRow(s, step);
    } else {
      OtherStepLeavesRow(s, step);
    }
  }

  lemma LastWriteSettlesRow(s: State, step: Step)
    requires Enabled(s, step) && (step.MarkUser? || step.Finish? || step.MarkFailed?) && OwnOk(s.runs[step.run])
    ensures Apply(s, step).runs[step.run].row.Terminal() <==>
      s.runs[step.run].row.Terminal() || WritesOwnRow(s, step, step.run)
  {
  }

  lemma OtherStepLeavesRow(s: State, step: Step)
    requires Enabled(s, step) && Plain(step) && !(step.MarkUser? || step.Finish? || step.MarkFailed?)
    requires OwnOk(s.runs[step.run])
    ensures Apply(s, step).runs[step.run].row.Terminal() <==> s.runs[step.run].row.Terminal()
  {
  }

  ghost predicate HasTerminalRow(s: State, r: RunId) { r < |s.runs| && s.runs[r].row.Terminal() }

  lemma TerminalRowMoves(s: State, step: Step, r: RunId)
    requires Inv(s) && Enabled(s, step)
    ensures HasTerminalRow(Apply(s, step), r) <==> HasTerminalRow(s, r) || SettlesRow(s, step, r)
  {
    RunsStay(s, step);
    if r < |Apply(s, step).runs| { StepSettlesRow(s, step, r); }
  }

  lemma SettledSnoc(states: seq<State>, steps: seq<Step>, i: nat, r: RunId)
    requires 0 < i < |states| == |steps| + 1
    ensures WasSettled(states, steps, i, r) <==>
      WasSettled(states, steps, i - 1, r) || SettlesRow(states[i - 1], steps[i - 1], r)
  {
  }

  ghost predicate RowMovesAt(states: seq<State>, steps: seq<Step>, j: nat, r: RunId)
    requires 0 < j < |states| == |steps| + 1
  {
    HasTerminalRow(states[j], r) <==> HasTerminalRow(states[j - 1], r) || SettlesRow(states[j - 1], steps[j - 1], r)
  }

  lemma RowMoves(states: seq<State>, steps: seq<Step>, j: nat, r: RunId)
    requires Behavior(states, steps) && 0 < j < |states|
    ensures RowMovesAt(states, steps, j, r)
  {
    ReachableInv(states, steps, j - 1);
    TerminalRowMoves(states[j - 1], steps[j - 1], r);
  }

  lemma {:induction false} RowMovedExactly(states: seq<State>, steps: seq<Step>, i: nat, r: RunId)
    requires i < |states| == |steps| + 1 && !HasTerminalRow(states[0], r)
    requires forall j {:trigger RowMovesAt(states, steps, j, r)} :: 0 < j <= i ==> RowMovesAt(states, steps, j, r)
    ensures HasTerminalRow(states[i], r) <==> WasSettled(states, steps, i, r)
  {
    if i > 0 {
      RowMovedExactly(states, steps, i - 1, r);
      assert RowMovesAt(states, steps, i, r);
      SettledSnoc(states, steps, i, r);
    }
  }

  /** Whatever failed: a row has left `Running` exactly when a superseder marked it
      after its insert or the run's own last write succeeded. */
  lemma RowIsTerminalExactly(states: seq<State>, steps: seq<Step>, i: nat, r: RunId)
    requires Behavior(states, steps) && i < |states|
    ensures HasTerminalRow(states[i], r) <==> WasSettled(states, steps, i, r)
  {
    forall j | 0 < j <= i ensures RowMovesAt(states, steps, j, r) {
      RowMoves(states, steps, j, r);
    }
    RowMovedExactly(states, steps, i, r);
  }

  // ---- who is blamed ----

  lemma {:induction false} SupersededRowWasMarked(states: seq<State>, steps: seq<Step>, i: nat, r: RunId)
    requires Behavior(states, steps) && i < |states| && r < |states[i].runs| && states[i].runs[r].row.SupersededBy?
    ensures WasMarkedInTime(states, steps, i, r)
  {
    assert states[0] == INITIAL;
    SupersededStep(states[i - 1], steps[i - 1], r);
    if !MarksInTime(states[i - 1], steps[i - 1], r) { SupersededRowWasMarked(states, steps, i - 1, r); }
  }

  lemma SupersededStep(s: State, step: Step, r: RunId)
    requires Enabled(s, step) && r < |Apply(s, step).runs| && Apply(s, step).runs[r].row.SupersededBy?
    ensures r < |s.runs| && (s.runs[r].row.SupersededBy? || MarksInTime(s, step, r))
  {
    if Plain(step) { PlainStepIsLocal(s, step); }
  }

  lemma MarkedRowIsTerminal(states: seq<State>, steps: seq<Step>, i: nat, r: RunId)
    requires Behavior(states, steps) && i < |states| && WasMarkedInTime(states, steps, i, r)
    ensures r < |states[i].runs| && states[i].runs[r].row.Terminal()
  {
    var j :| 0 <= j < i && MarksInTime(states[j], steps[j], r);
    NothingIsTakenBack(states, steps, j + 1, i, r);
  }

  /** A run that records a user cancel gets to record it exactly when no
      superseder marked the row in time, whatever failed. */
  lemma UserMarkLandsExactly(states: seq<State>, steps: seq<Step>, i: nat, r: RunId)
    requires Behavior(states, steps) && i < |steps| && steps[i] == MarkUser(r, true)
    ensures r < |states[i + 1].runs|
    ensures states[i + 1].runs[r].row == CancelledByUser <==> !WasMarkedInTime(states, steps, i, r)
  {
    ReachableInv(states, steps, i);
    assert RunOk(states[i], r);
    if WasMarkedInTime(states, steps, i, r) { MarkedRowIsTerminal(states, steps, i, r); }
    if states[i].runs[r].row.SupersededBy? { SupersededRowWasMarked(states, steps, i, r); }
  }

  /** Without failed writes of the key, a run whose token no user fired is recorded
      as cancelled by the user exactly when its superseder is still starting, or
      marked the row before it was inserted. */
  lemma UserIsBlamedExactly(states: seq<State>, steps: seq<Step>, i: nat, r: RunId)
    requires Behavior(states, steps) && i < |steps| && steps[i] == MarkUser(r, true) && !states[i].runs[r].userFired
    requires states[i].runs[r].key !in states[i].hist.insertFailed + states[i].hist.writeFailed
    ensures states[i].runs[r].successor.Some? && states[i].runs[r].successor.value < |states[i].runs|
    ensures states[i + 1].runs[r].row == CancelledByUser <==>
      states[i].runs[states[i].runs[r].successor.value].Starting() || WasMarkedTooEarly(states, steps, i, r)
  {
    var s := states[i];
    ReachableTidy(states, steps, i);
    assert Tidy(s, r) && RunOk(s, r);
    MarkMissedMeans(states, steps, i, r);
  }

  // ---- stale drafts ----

  ghost predicate NewerRun(s: State, r: RunId) {
    r < |s.runs| && exists n :: r < n < |s.runs| && s.runs[n].key == s.runs[r].key
  }

  /** At the guard: a run goes on to its draft exactly when no run of its key
      swapped in after it, or the key's slot is empty. */
  lemma GuardStopsExactly(states: seq<State>, steps: seq<Step>, g: nat, r: RunId)
    requires Behavior(states, steps) && g < |steps| && steps[g] == Guard(r)
    ensures Enabled(states[g + 1], InsertDraft(r, true)) <==>
      !NewerRun(states[g], r) || states[g].runs[r].key !in states[g].slots
  {
    var s := states[g];
    ReachableInv(states, steps, g);
    SlotsAreOk(s, s.runs[r].key);
  }

  lemma EntersDrafting(s: State, step: Step, r: RunId)
    requires Enabled(s, step) && r < |Apply(s, step).runs| && Apply(s, step).runs[r].pc.Drafting?
    ensures r < |s.runs| && (s.runs[r].pc.Drafting? || step == Guard(r))
  {
    if Plain(step) { PlainStepIsLocal(s, step); }
  }

  lemma {:induction false} GuardCameFirst(states: seq<State>, steps: seq<Step>, i: nat, r: RunId) returns (g: nat)
    requires Behavior(states, steps) && i < |states| && r < |states[i].runs| && states[i].runs[r].pc.Drafting?
    ensures g < i && steps[g] == Guard(r) && states[g + 1].runs[r].pc.Drafting?
  {
    assert states[0] == INITIAL;
    EntersDrafting(states[i - 1], steps[i - 1], r);
    if steps[i - 1] == Guard(r) { g := i - 1; } else { g := GuardCameFirst(states, steps, i - 1, r); }
  }

  /** A start of the key of `r` between two moments. */
  ghost predicate StartedBetween(states: seq<State>, steps: seq<Step>, g: nat, d: nat, key: Key)
    requires g <= d <= |steps|
  {
    exists j :: g <= j < d && steps[j] == Start(key)
  }

  lemma StepAddsNewer(s: State, step: Step, r: RunId)
    requires Enabled(s, step) && r < |s.runs|
    ensures r < |Apply(s, step).runs| && Apply(s, step).runs[r].key == s.runs[r].key
    ensures NewerRun(Apply(s, step), r) <==> NewerRun(s, r) || step == Start(s.runs[r].key)
  {
    var t := Apply(s, step);
    KeysStay(s, step);
    if step.Start? {
      assert t.runs[|s.runs|].key == step.key;
      assert step.key == s.runs[r].key ==> r < |s.runs| < |t.runs|;
    }
    if NewerRun(s, r) {
      var n :| r < n < |s.runs| && s.runs[n].key == s.runs[r].key;
      assert t.runs[n].key == t.runs[r].key;
    }
    if NewerRun(t, r) {
      var n :| r < n < |t.runs| && t.runs[n].key == t.runs[r].key;
      assert n < |s.runs| ==> s.runs[n].key == s.runs[r].key;
    }
  }

  lemma KeysStay(s: State, step: Step)
    requires Enabled(s, step)
    ensures |Apply(s, step).runs| == |s.runs| + if step.Start? then 1 else 0
    ensures forall y :: 0 <= y < |s.runs| ==> Apply(s, step).runs[y].key == s.runs[y].key
  {
    if Plain(step) { PlainStepIsLocal(s, step); }
  }

  lemma {:induction false} NewerRunMeans(states: seq<State>, steps: seq<Step>, g: nat, d: nat, r: RunId)
    requires Behavior(states, steps) && g <= d < |states| && r < |states[g].runs|
    ensures r < |states[d].runs| && states[d].runs[r].key == states[g].runs[r].key
    ensures NewerRun(states[d], r) <==>
      NewerRun(states[g], r) || StartedBetween(states, steps, g, d, states[g].runs[r].key)
    decreases d
  {
    if g < d {
      NewerRunMeans(states, steps, g, d - 1, r);
      StepAddsNewer(states[d - 1], steps[d - 1], r);
    }
  }

  /** Behind every draft there is a guard that let its run pass. The run is not the
      last of its key when it writes the draft exactly when another swapped in
      after that guard, or had swapped in before and was out of the slot at it. */
  lemma StaleDraftExactly(states: seq<State>, steps: seq<Step>, d: nat, r: RunId, ok: bool) returns (g: nat)
    requires Behavior(states, steps) && d < |steps| && steps[d] == InsertDraft(r, ok)
    ensures g < d && steps[g] == Guard(r) && r < |states[g].runs| && Enabled(states[g + 1], InsertDraft(r, ok))
    ensures NewerRun(states[d], r) <==>
      StartedBetween(states, steps, g, d, states[g].runs[r].key)
        || (NewerRun(states[g], r) && states[g].runs[r].key !in states[g].slots)
  {
    g := GuardCameFirst(states, steps, d, r);
    GuardStopsExactly(states, steps, g, r);
    NewerRunMeans(states, steps, g, d, r);
  }

  // ---- which superseder an outcome names ----

  /** The run that the slot named when `r` looked at it. */
  ghost predicate SeesRun(s: State, step: Step, r: RunId, n: RunId) {
    SeesOther(s, step, r) && s.slots[s.runs[r].key] == n
  }

  ghost predicate NamesNewer(s: State, r: RunId, n: RunId) {
    HasSawNewer(s, r) && s.runs[r].pc.outcome.newer.value == n
  }

  lemma OutcomeMoves(s: State, step: Step, r: RunId, n: RunId)
    requires Enabled(s, step) && NamesNewer(Apply(s, step), r, n)
    ensures NamesNewer(s, r, n) || SeesRun(s, step, r, n)
  {
    if Plain(step) {
      PlainStepIsLocal(s, step);
      PlainStepNamesNobody(s, step, r, n);
    } else if step.Start? || step.Fire? || step.MarkPrior? {
      LinkingStepNamesNobody(s, step, r, n);
    }
  }

  lemma PlainStepNamesNobody(s: State, step: Step, r: RunId, n: RunId)
    requires Enabled(s, step) && Plain(step) && NamesNewer(Apply(s, step), r, n)
    ensures NamesNewer(s, r, n)
  {
    PlainStepIsLocal(s, step);
    PlainStepSeesNobody(s, step);
  }

  lemma LinkingStepNamesNobody(s: State, step: Step, r: RunId, n: RunId)
    requires Enabled(s, step) && (step.Start? || step.Fire? || step.MarkPrior?) && NamesNewer(Apply(s, step), r, n)
    ensures NamesNewer(s, r, n)
  {
  }

  lemma {:induction false} OutcomeComesFromLook(states: seq<State>, steps: seq<Step>, i: nat, r: RunId, n: RunId)
    returns (g: nat)
    requires Behavior(states, steps) && i < |states| && NamesNewer(states[i], r, n)
    ensures g < i && SeesRun(states[g], steps[g], r, n)
  {
    assert states[0] == INITIAL;
    OutcomeMoves(states[i - 1], steps[i - 1], r, n);
    if SeesRun(states[i - 1], steps[i - 1], r, n) {
      g := i - 1;
    } else {
      g := OutcomeComesFromLook(states, steps, i - 1, r, n);
    }
  }

  /** What a run sees in its slot is the last run of its key. */
  lemma SeenRunIsLast(states: seq<State>, steps: seq<Step>, g: nat, r: RunId, n: RunId)
    requires Behavior(states, steps) && g < |steps| && SeesRun(states[g], steps[g], r, n)
    ensures LastOfKey(states[g], n) && states[g].runs[n].key == states[g].runs[r].key
  {
    ReachableInv(states, steps, g);
    SlotsAreOk(states[g], states[g].runs[r].key);
  }

  /** Row and outcome of a superseded run name the same run exactly when that run
      was the last of the key at the look the outcome comes from: no further start
      of the key had come by then. */
  lemma OutcomeNamesRowsRunExactly(states: seq<State>, steps: seq<Step>, i: nat, r: RunId) returns (g: nat)
    requires Behavior(states, steps) && i < |states| && r < |states[i].runs|
    requires states[i].runs[r].row.SupersededBy? && SawNewer(states[i].runs[r])
    ensures g < i && SeesOther(states[g], steps[g], r)
    ensures var (m, n) := (states[i].runs[r].row.run, states[i].runs[r].pc.outcome.newer.value);
      && m < |states[g].runs| && states[g].runs[m].key == states[g].runs[r].key
      && SeesRun(states[g], steps[g], r, n)
      && (n == m <==> !NewerRun(states[g], m))
  {
    var (m, n) := (states[i].runs[r].row.run, states[i].runs[r].pc.outcome.newer.value);
    g := OutcomeComesFromLook(states, steps, i, r, n);
    SeenRunIsLast(states, steps, g, r, n);
    OutcomeNamesRowsRunOrLater(states, steps, i, r);
    SupersededByPointsForward(states, steps, i, r);
    NothingIsTakenBack(states, steps, g, i, m);
    NothingIsTakenBack(states, steps, g, i, r);
    if n != m { assert m < n < |states[g].runs| && states[g].runs[n].key == states[g].runs[m].key; }
  }

  // ---- evictions ----

  /** A run whose insert failed takes the entry of `r` out of the map. */
  ghost predicate Evicts(s: State, step: Step, r: RunId) {
    && step.Evict? && step.run < |s.runs| && r < |s.runs| && step.run != r
    && s.runs[step.run].key == s.runs[r].key && SlotOf(s.slots, s.runs[r].key) == Some(r)
  }

  ghost predicate Evicted(states: seq<State>, steps: seq<Step>, i: nat, r: RunId)
    requires i < |states| == |steps| + 1
  {
    exists j :: 0 <= j < i && Evicts(states[j], steps[j], r)
  }

  ghost predicate HoldsSlot(s: State, r: RunId) { r < |s.runs| && SlotOf(s.slots, s.runs[r].key) == Some(r) }

  /** A live run loses its slot to a successor or to an eviction. */
  lemma LosesSlot(s: State, step: Step, r: RunId)
    requires Inv(s) && Enabled(s, step) && r < |s.runs| && s.runs[r].successor.None?
    ensures r < |Apply(s, step).runs|
    ensures Apply(s, step).runs[r].successor.Some? ==> HoldsSlot(s, r)
    ensures HoldsSlot(s, r) && Apply(s, step).runs[r].Live() && !HoldsSlot(Apply(s, step), r) ==>
      Apply(s, step).runs[r].successor.Some? || Evicts(s, step, r)
    ensures !HoldsSlot(s, r) ==> !HoldsSlot(Apply(s, step), r)
  {
    KeysStay(s, step);
    if Plain(step) { PlainStepIsLocal(s, step); }
    SlotsAreOk(s, s.runs[r].key);
  }

  lemma {:induction false} RunsGrow(states: seq<State>, steps: seq<Step>, i: nat, j: nat)
    requires Behavior(states, steps) && i <= j < |states|
    ensures |states[i].runs| <= |states[j].runs|
    decreases j
  {
    if i < j {
      RunsGrow(states, steps, i, j - 1);
      RunsStay(states[j - 1], steps[j - 1]);
    }
  }

  /** Neither the new run of a start nor one with a successor was evicted; and a
      live run without successor holds its slot exactly when it was not. */
  ghost predicate FateOk(s: State, r: RunId, evicted: bool)
    requires r < |s.runs|
  {
    && (s.runs[r].successor.Some? ==> !evicted)
    && (s.runs[r].successor.None? && s.runs[r].Live() ==> (HoldsSlot(s, r) <==> !evicted))
  }

  lemma StepKeepsFate(s: State, step: Step, r: RunId, evicted: bool)
    requires Inv(s) && Enabled(s, step) && r < |s.runs| && FateOk(s, r, evicted)
    ensures r < |Apply(s, step).runs| && FateOk(Apply(s, step), r, evicted || Evicts(s, step, r))
  {
    var t := Apply(s, step);
    StepPersists(s, step, r);
    if HoldsSlot(s, r) { LiveSlotHasNoSuccessor(s, s.runs[r].key); }
    if s.runs[r].successor.None? {
      LosesSlot(s, step, r);
      SlotsAreOk(s, s.runs[r].key);
      GainsSuccessor(s, step, r);
    } else {
      SuccessorStays(s, step, r);
    }
  }

  lemma GainsSuccessor(s: State, step: Step, r: RunId)
    requires Enabled(s, step) && r < |s.runs| && s.runs[r].successor.None?
    ensures r < |Apply(s, step).runs|
    ensures Apply(s, step).runs[r].successor.Some? ==> step.Start?
    ensures Evicts(s, step, r) ==> !HoldsSlot(Apply(s, step), r)
  {
    if Plain(step) { PlainStepIsLocal(s, step); }
  }

  lemma SuccessorStays(s: State, step: Step, r: RunId)
    requires Inv(s) && Enabled(s, step) && r < |s.runs| && s.runs[r].successor.Some?
    ensures r < |Apply(s, step).runs| && Apply(s, step).runs[r].successor.Some?
  {
    if Plain(step) { PlainStepIsLocal(s, step); }
  }

  lemma NewRunHoldsSlot(s: State, step: Step)
    requires Enabled(s, step) && |s.runs| < |Apply(s, step).runs|
    ensures FateOk(Apply(s, step), |s.runs|, false)
  {
    KeysStay(s, step);
  }

  lemma EvictedSnoc(states: seq<State>, steps: seq<Step>, i: nat, r: RunId)
    requires 0 < i < |states| == |steps| + 1
    ensures Evicted(states, steps, i, r) <==>
      Evicted(states, steps, i - 1, r) || Evicts(states[i - 1], steps[i - 1], r)
  {
  }

  lemma OldRunFate(states: seq<State>, steps: seq<Step>, i: nat, r: RunId)
    requires Behavior(states, steps) && 0 < i < |states| && r < |states[i - 1].runs|
    requires FateOk(states[i - 1], r, Evicted(states, steps, i - 1, r))
    ensures r < |states[i].runs| && FateOk(states[i], r, Evicted(states, steps, i, r))
  {
    ReachableInv(states, steps, i - 1);
    StepKeepsFate(states[i - 1], steps[i - 1], r, Evicted(states, steps, i - 1, r));
    EvictedSnoc(states, steps, i, r);
  }

  lemma NewRunFate(states: seq<State>, steps: seq<Step>, i: nat, r: RunId)
    requires Behavior(states, steps) && 0 < i < |states| && |states[i - 1].runs| <= r < |states[i].runs|
    ensures FateOk(states[i], r, Evicted(states, steps, i, r))
  {
    KeysStay(states[i - 1], steps[i - 1]);
    NewRunHoldsSlot(states[i - 1], steps[i - 1]);
    forall j | 0 <= j < i ensures !Evicts(states[j], steps[j], r) {
      RunsGrow(states, steps, j, i - 1);
    }
  }

  lemma {:induction false} SlotFate(states: seq<State>, steps: seq<Step>, i: nat, r: RunId)
    requires Behavior(states, steps) && i < |states| && r < |states[i].runs|
    ensures FateOk(states[i], r, Evicted(states, steps, i, r))
  {
    assert states[0] == INITIAL;
    if r < |states[i - 1].runs| {
      SlotFate(states, steps, i - 1, r);
      OldRunFate(states, steps, i, r);
    } else {
      NewRunFate(states, steps, i, r);
    }
  }

  /** Somebody is about to fire the token of `r`. */
  ghost predicate FireIsPending(s: State, r: RunId) {
    exists x :: 0 <= x < |s.runs| && s.runs[x].prior == Some(r) && s.runs[x].pc == Firing
  }

  ghost predicate NoFirePending(s: State, key: Key) {
    forall x :: 0 <= x < |s.runs| && s.runs[x].key == key ==> s.runs[x].pc != Firing
  }

  lemma PendingFireIsBySuccessor(s: State, r: RunId)
    requires Inv(s) && r < |s.runs|
    ensures FireIsPending(s, r) ==> s.runs[r].successor.Some? && !NoFirePending(s, s.runs[r].key)
  {
    if x :| 0 <= x < |s.runs| && s.runs[x].prior == Some(r) && s.runs[x].pc == Firing { assert RunOk(s, x); }
  }

  /** A live run that the slot does not name has its token fired, or its superseder
      is about to fire it, exactly when it was not evicted. */
  lemma LostSlotFiresToken(states: seq<State>, steps: seq<Step>, i: nat, r: RunId)
    requires Behavior(states, steps) && i < |states| && r < |states[i].runs|
    requires states[i].runs[r].Live() && SlotOf(states[i].slots, states[i].runs[r].key) != Some(r)
    ensures states[i].runs[r].superFired || FireIsPending(states[i], r) <==> !Evicted(states, steps, i, r)
  {
    var s := states[i];
    SlotFate(states, steps, i, r);
    ReachableInv(states, steps, i);
    assert RunOk(s, r);
    PendingFireIsBySuccessor(s, r);
    if s.runs[r].successor.Some? { assert s.runs[s.runs[r].successor.value].prior == Some(r); }
  }

  /** While no start of its key stands between swap and fire, no superseder has
      fired a live run's token exactly when the run holds its slot or was evicted. */
  lemma UncancelledExactly(states: seq<State>, steps: seq<Step>, i: nat, r: RunId)
    requires Behavior(states, steps) && i < |states| && r < |states[i].runs| && states[i].runs[r].Live()
    requires NoFirePending(states[i], states[i].runs[r].key)
    ensures !states[i].runs[r].superFired <==> HoldsSlot(states[i], r) || Evicted(states, steps, i, r)
  {
    var s := states[i];
    ReachableInv(states, steps, i);
    assert RunOk(s, r);
    if HoldsSlot(s, r) {
      LiveSlotHasNoSuccessor(s, s.runs[r].key);
    } else {
      LostSlotFiresToken(states, steps, i, r);
      PendingFireIsBySuccessor(s, r);
    }
  }

  /** So of the live runs of a key that were not evicted at most one is uncancelled
      while no start of the key stands between swap and fire. */
  lemma OneUncancelledRun(states: seq<State>, steps: seq<Step>, i: nat, a: RunId, b: RunId)
    requires Behavior(states, steps) && i < |states| && a < |states[i].runs| && b < |states[i].runs|
    requires var (x, y) := (states[i].runs[a], states[i].runs[b]);
      x.key == y.key && x.Live() && y.Live() && !x.Fired() && !y.Fired() && NoFirePending(states[i], x.key)
    requires !Evicted(states, steps, i, a) && !Evicted(states, steps, i, b)
    ensures a == b
  {
    UncancelledExactly(states, steps, i, a);
    UncancelledExactly(states, steps, i, b);
  }

  /** An eviction takes a failed insert of the key, by a run that had lost its slot. */
  lemma EvictionNeedsFailedInsert(states: seq<State>, steps: seq<Step>, i: nat, r: RunId)
    requires Behavior(states, steps) && i < |states| && Evicted(states, steps, i, r)
    ensures r < |states[i].runs| && states[i].runs[r].key in states[i].hist.insertFailed
  {
    var j :| 0 <= j < i && Evicts(states[j], steps[j], r);
    ReachableTidy(states, steps, j);
    assert Tidy(states[j], steps[j].run);
    RunsGrow(states, steps, j, i);
    NothingIsTakenBack(states, steps, j, i, r);
    var key := states[i].runs[r].key;
    InsertFailedMeans(states, steps, j, key);
    InsertFailedMeans(states, steps, i, key);
  }
}
