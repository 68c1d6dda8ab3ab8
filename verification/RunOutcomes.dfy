/** How a run ends, told by the steps it took: which steps lead to a failure, to a
    completion and to a user cancel, over every behavior. */
module RunOutcomes {
  import opened Basics
  import opened RunProtocol
  import opened RunInvariant
  import opened RunTheorems
  import opened RunSchedules

  // ---- the four ways ----

  predicate AtFailure(s: State, r: RunId) {
    r < |s.runs| &&
    var pc := s.runs[r].pc;
    pc == Evicting || pc == MarkingFailed || pc == Dropping(Failed) || pc == Ended(Failed)
  }

  predicate AtCompletion(s: State, r: RunId) {
    r < |s.runs| &&
    var pc := s.runs[r].pc;
    pc == Finishing || pc == Dropping(Completed) || pc == Ended(Completed)
  }

  predicate AtUserCancel(s: State, r: RunId) {
    r < |s.runs| &&
    var pc := s.runs[r].pc;
    pc == MarkingUser || pc == Dropping(Cancelled(None)) || pc == Ended(Cancelled(None))
  }

  predicate AfterUserMark(s: State, r: RunId) {
    r < |s.runs| && (s.runs[r].pc == Dropping(Cancelled(None)) || s.runs[r].pc == Ended(Cancelled(None)))
  }

  predicate Fails(step: Step, r: RunId) {
    step == Insert(r, false) || step == Store(r, false) || step == Render(r, false) || step == InsertDraft(r, false)
  }

  predicate MarksUser(step: Step, r: RunId) { step == MarkUser(r, true) || step == MarkUser(r, false) }

  /** The run looks at its slot on its cancel path and finds no other run there. */
  predicate SeesNobody(s: State, step: Step, r: RunId) {
    step == ReadSlot(r) && r < |s.runs| && (s.runs[r].key !in s.slots || s.slots[s.runs[r].key] == r)
  }

  // ---- the next action of one run ----

  predicate Own(step: Step, r: RunId) { !step.Start? && !step.UserCancel? && step.run == r }

  /** Where a step of its own takes a run, from what the run holds and sees. */
  function PcAfter(step: Step, run: Run, seen: Option<RunId>): Pc {
    match step
    case Fire(_) => Inserting
    case Insert(_, ok) => if !ok then Evicting else if run.prior.Some? then Marking else Checking
    case Evict(_) => Ended(Failed)
    case MarkPrior(_, _) => Checking
    case Check(_) => if run.Fired() then ReadingSlot else Storing
    case ReadSlot(_) => if seen.Some? then Dropping(Cancelled(seen)) else MarkingUser
    case MarkUser(_, _) => Dropping(Cancelled(None))
    case Store(_, ok) => if ok then Rendering else MarkingFailed
    case Render(_, ok) => if ok then Guarding else MarkingFailed
    case Guard(_) => if seen.Some? then Ended(Cancelled(seen)) else Drafting
    case InsertDraft(_, ok) => if ok then Finishing else MarkingFailed
    case Finish(_, _) => Dropping(Completed)
    case MarkFailed(_, _) => Dropping(Failed)
    case Drop(_) => if run.pc.Dropping? then Ended(run.pc.outcome) else run.pc
    case _ => run.pc
  }

  lemma PcFollows(s: State, step: Step, r: RunId)
    requires Enabled(s, step) && r < |s.runs|
    ensures r < |Apply(s, step).runs|
    ensures Apply(s, step).runs[r].pc ==
      if Own(step, r) then PcAfter(step, s.runs[r], SupersededByNow(s.slots, s.runs[r].key, r)) else s.runs[r].pc
  {
    if Plain(step) {
      PlainStepIsLocal(s, step);
      if r == step.run { PlainPcFollows(s, step); }
    } else if step.Start? || step.Fire? || step.MarkPrior? {
      LinkingPcFollows(s, step, r);
    }
  }

  lemma PlainPcFollows(s: State, step: Step)
    requires Enabled(s, step) && Plain(step)
    ensures Apply(s, step).runs[step.run].pc == PcAfter(step, s.runs[step.run], None)
  {
  }

  lemma LinkingPcFollows(s: State, step: Step, r: RunId)
    requires Enabled(s, step) && (step.Start? || step.Fire? || step.MarkPrior?) && r < |s.runs|
    ensures r < |Apply(s, step).runs|
    ensures Apply(s, step).runs[r].pc == if Own(step, r) then PcAfter(step, s.runs[r], None) else s.runs[r].pc
  {
  }

  lemma NewPc(s: State, step: Step, r: RunId)
    requires Enabled(s, step) && |s.runs| <= r < |Apply(s, step).runs|
    ensures Apply(s, step).runs[r].pc == Firing || Apply(s, step).runs[r].pc == Inserting
  {
    KeysStay(s, step);
  }

  /** The pc a step of its own finds a run at. */
  lemma OwnPc(s: State, step: Step, r: RunId)
    requires Enabled(s, step) && Own(step, r)
    ensures r < |s.runs|
    ensures if step.Drop? then s.runs[r].pc.Dropping? else s.runs[r].pc == PcOf(step)
  {
  }

  /** What a step does to the next action of `r`, from `s` to `t`. */
  ghost predicate PcStep(s: State, t: State, step: Step, r: RunId) {
    && |s.runs| <= |t.runs|
    && (Own(step, r) ==>
          r < |s.runs| && if step.Drop? then s.runs[r].pc.Dropping? else s.runs[r].pc == PcOf(step))
    && (r < |s.runs| ==>
          var seen := SupersededByNow(s.slots, s.runs[r].key, r);
          t.runs[r].pc == if Own(step, r) then PcAfter(step, s.runs[r], seen) else s.runs[r].pc)
    && (|s.runs| <= r < |t.runs| ==> t.runs[r].pc == Firing || t.runs[r].pc == Inserting)
  }

  lemma EveryStepIsPcStep(s: State, step: Step, r: RunId)
    requires Enabled(s, step)
    ensures PcStep(s, Apply(s, step), step, r)
  {
    RunsStay(s, step);
    if Own(step, r) { OwnPc(s, step, r); }
    if r < |s.runs| {
      PcFollows(s, step, r);
    } else if r < |Apply(s, step).runs| {
      NewPc(s, step, r);
    }
  }

  lemma FailureMoves(s: State, t: State, step: Step, r: RunId)
    requires PcStep(s, t, step, r)
    ensures AtFailure(t, r) <==> AtFailure(s, r) || Fails(step, r)
  {
  }

  lemma CompletionMoves(s: State, t: State, step: Step, r: RunId)
    requires PcStep(s, t, step, r)
    ensures AtCompletion(t, r) <==> AtCompletion(s, r) || step == InsertDraft(r, true)
  {
  }

  lemma UserCancelMoves(s: State, t: State, step: Step, r: RunId)
    requires PcStep(s, t, step, r)
    ensures AtUserCancel(t, r) <==> AtUserCancel(s, r) || SeesNobody(s, step, r)
  {
  }

  lemma UserMarkMoves(s: State, t: State, step: Step, r: RunId)
    requires PcStep(s, t, step, r)
    ensures AfterUserMark(t, r) <==> AfterUserMark(s, r) || MarksUser(step, r)
  {
  }

  // ---- over whole behaviors ----

  /** The fact moves at every step of the behavior as its cause says. */
  ghost predicate MovesBy(states: seq<State>, steps: seq<Step>, fact: State -> bool, cause: (State, Step) -> bool)
    requires |states| == |steps| + 1
  {
    forall j :: 0 <= j < |steps| ==> (fact(states[j + 1]) <==> fact(states[j]) || cause(states[j], steps[j]))
  }

  ghost predicate Came(states: seq<State>, steps: seq<Step>, i: nat, cause: (State, Step) -> bool)
    requires i < |states| == |steps| + 1
  {
    exists j :: 0 <= j < i && cause(states[j], steps[j])
  }

  lemma {:induction false} MovedExactly(states: seq<State>, steps: seq<Step>, i: nat, fact: State -> bool,
                                        cause: (State, Step) -> bool)
    requires i < |states| == |steps| + 1 && !fact(states[0]) && MovesBy(states, steps, fact, cause)
    ensures fact(states[i]) <==> Came(states, steps, i, cause)
  {
    if i > 0 {
      MovedExactly(states, steps, i - 1, fact, cause);
      assert fact(states[i - 1 + 1]) <==> fact(states[i - 1]) || cause(states[i - 1], steps[i - 1]);
    }
  }

  lemma EachStep(states: seq<State>, steps: seq<Step>, j: nat, r: RunId)
    requires Behavior(states, steps) && j < |steps|
    ensures PcStep(states[j], states[j + 1], steps[j], r)
  {
    EveryStepIsPcStep(states[j], steps[j], r);
  }

  ghost predicate PcSteps(states: seq<State>, steps: seq<Step>, r: RunId) {
    |states| == |steps| + 1 && states[0].runs == []
    && forall j :: 0 <= j < |steps| ==> PcStep(states[j], states[j + 1], steps[j], r)
  }

  lemma BehaviorHasPcSteps(states: seq<State>, steps: seq<Step>, r: RunId)
    requires Behavior(states, steps)
    ensures PcSteps(states, steps, r)
  {
    forall j | 0 <= j < |steps| ensures PcStep(states[j], states[j + 1], steps[j], r) { EachStep(states, steps, j, r); }
  }

  /** A run is on its way to a failure, or failed, exactly when a step of it failed:
      its insert, the storing of its activity, its rendering or its draft insert. */
  lemma FailureExactly(states: seq<State>, steps: seq<Step>, i: nat, r: RunId)
    requires Behavior(states, steps) && i < |states|
    ensures AtFailure(states[i], r) <==>
      exists j :: 0 <= j < i
        && (steps[j] == Insert(r, false) || steps[j] == Store(r, false) || steps[j] == Render(r, false)
            || steps[j] == InsertDraft(r, false))
  {
    BehaviorHasPcSteps(states, steps, r);
    FailureOfSteps(states, steps, i, r);
  }

  lemma FailureOfSteps(states: seq<State>, steps: seq<Step>, i: nat, r: RunId)
    requires PcSteps(states, steps, r) && i < |states|
    ensures AtFailure(states[i], r) <==> exists j :: 0 <= j < i && Fails(steps[j], r)
  {
    var (fact, cause) := ((s: State) => AtFailure(s, r), (s: State, step: Step) => Fails(step, r));
    forall j | 0 <= j < |steps| ensures fact(states[j + 1]) <==> fact(states[j]) || cause(states[j], steps[j]) {
      FailureMoves(states[j], states[j + 1], steps[j], r);
    }
    MovedExactly(states, steps, i, fact, cause);
  }

  /** A run is on its way to completion, or completed, exactly when it wrote its draft. */
  lemma CompletionExactly(states: seq<State>, steps: seq<Step>, i: nat, r: RunId)
    requires Behavior(states, steps) && i < |states|
    ensures AtCompletion(states[i], r) <==> exists j :: 0 <= j < i && steps[j] == InsertDraft(r, true)
  {
    BehaviorHasPcSteps(states, steps, r);
    CompletionOfSteps(states, steps, i, r);
  }

  lemma CompletionOfSteps(states: seq<State>, steps: seq<Step>, i: nat, r: RunId)
    requires PcSteps(states, steps, r) && i < |states|
    ensures AtCompletion(states[i], r) <==> exists j :: 0 <= j < i && steps[j] == InsertDraft(r, true)
  {
    var fact := (s: State) => AtCompletion(s, r);
    var cause := (s: State, step: Step) => step == InsertDraft(r, true);
    forall j | 0 <= j < |steps| ensures fact(states[j + 1]) <==> fact(states[j]) || cause(states[j], steps[j]) {
      CompletionMoves(states[j], states[j + 1], steps[j], r);
    }
    MovedExactly(states, steps, i, fact, cause);
  }

  /** A run is on its way to end as cancelled by the user, or ended so, exactly when
      it looked at its slot on its cancel path and found no other run there. */
  lemma UserCancelExactly(states: seq<State>, steps: seq<Step>, i: nat, r: RunId)
    requires Behavior(states, steps) && i < |states|
    ensures AtUserCancel(states[i], r) <==> exists j :: 0 <= j < i && SeesNobody(states[j], steps[j], r)
  {
    BehaviorHasPcSteps(states, steps, r);
    UserCancelOfSteps(states, steps, i, r);
  }

  lemma UserCancelOfSteps(states: seq<State>, steps: seq<Step>, i: nat, r: RunId)
    requires PcSteps(states, steps, r) && i < |states|
    ensures AtUserCancel(states[i], r) <==> exists j :: 0 <= j < i && SeesNobody(states[j], steps[j], r)
  {
    var fact := (s: State) => AtUserCancel(s, r);
    var cause := (s: State, step: Step) => SeesNobody(s, step, r);
    forall j | 0 <= j < |steps| ensures fact(states[j + 1]) <==> fact(states[j]) || cause(states[j], steps[j]) {
      UserCancelMoves(states[j], states[j + 1], steps[j], r);
    }
    MovedExactly(states, steps, i, fact, cause);
  }

  lemma UserMarkOfSteps(states: seq<State>, steps: seq<Step>, i: nat, r: RunId)
    requires PcSteps(states, steps, r) && i < |states|
    ensures AfterUserMark(states[i], r) <==> exists j :: 0 <= j < i && MarksUser(steps[j], r)
  {
    var fact := (s: State) => AfterUserMark(s, r);
    var cause := (s: State, step: Step) => MarksUser(step, r);
    forall j | 0 <= j < |steps| ensures fact(states[j + 1]) <==> fact(states[j]) || cause(states[j], steps[j]) {
      UserMarkMoves(states[j], states[j + 1], steps[j], r);
    }
    MovedExactly(states, steps, i, fact, cause);
  }

  /** Every ended run ended in one of four ways, told by its steps: it failed if one
      of its first writes or its rendering failed; it completed if it wrote a draft;
      it was cancelled by the user if it found no other run in its slot on its cancel
      path; and otherwise it was superseded by the run it found. */
  lemma EndsExactly(states: seq<State>, steps: seq<Step>, i: nat, r: RunId)
    requires Behavior(states, steps) && i < |states| && r < |states[i].runs| && states[i].runs[r].pc.Ended?
    ensures states[i].runs[r].pc.outcome == Failed <==> exists j :: 0 <= j < i && Fails(steps[j], r)
    ensures states[i].runs[r].pc.outcome == Completed <==> exists j :: 0 <= j < i && steps[j] == InsertDraft(r, true)
    ensures states[i].runs[r].pc.outcome == Cancelled(None) <==>
      exists j :: 0 <= j < i && SeesNobody(states[j], steps[j], r)
    ensures (exists n :: states[i].runs[r].pc.outcome == Cancelled(Some(n))) <==> HasSeenOther(states, steps, i, r)
  {
    BehaviorHasPcSteps(states, steps, r);
    FailureOfSteps(states, steps, i, r);
    CompletionExactly(states, steps, i, r);
    UserCancelExactly(states, steps, i, r);
    SawNewerMeans(states, steps, i, r);
    EndedAs(states[i], r);
  }

  lemma EndedAs(s: State, r: RunId)
    requires r < |s.runs| && s.runs[r].pc.Ended?
    ensures s.runs[r].pc.outcome == Failed <==> AtFailure(s, r)
    ensures s.runs[r].pc.outcome == Completed <==> AtCompletion(s, r)
    ensures s.runs[r].pc.outcome == Cancelled(None) <==> AtUserCancel(s, r)
    ensures (exists n :: s.runs[r].pc.outcome == Cancelled(Some(n))) <==> HasSawNewer(s, r)
  {
    SomeOutcome(s.runs[r].pc.outcome);
  }

  lemma SomeOutcome(outcome: Outcome)
    ensures (exists n :: outcome == Cancelled(Some(n))) <==> outcome.Cancelled? && outcome.newer.Some?
  {
    if outcome.Cancelled? && outcome.newer.Some? { assert outcome == Cancelled(Some(outcome.newer.value)); }
  }

  // ---- a plain user cancel, and a plain run ----

  predicate OnCancelPath(pc: Pc) {
    pc.ReadingSlot? || pc.MarkingUser? || ((pc.Dropping? || pc.Ended?) && pc.outcome.Cancelled?)
  }

  lemma {:induction false} CancelPathStays(states: seq<State>, steps: seq<Step>, c: nat, i: nat, r: RunId)
    requires PcSteps(states, steps, r) && c <= i < |states|
    requires r < |states[c].runs| && OnCancelPath(states[c].runs[r].pc)
    ensures r < |states[i].runs| && OnCancelPath(states[i].runs[r].pc)
    decreases i
  {
    if c < i {
      CancelPathStays(states, steps, c, i - 1, r);
      CancelPathStep(states[i - 1], states[i - 1 + 1], steps[i - 1], r);
    }
  }

  lemma CancelPathStep(s: State, t: State, step: Step, r: RunId)
    requires PcStep(s, t, step, r) && r < |s.runs| && OnCancelPath(s.runs[r].pc)
    ensures r < |t.runs| && OnCancelPath(t.runs[r].pc)
  {
  }

  lemma CheckLeadsAway(s: State, t: State, r: RunId)
    requires PcStep(s, t, Check(r), r) && s.runs[r].Fired()
    ensures r < |t.runs| && OnCancelPath(t.runs[r].pc)
  {
  }

  /** Without a fire by a superseder nobody marks the row of a run. */
  lemma UnfiredIsUnmarked(states: seq<State>, steps: seq<Step>, i: nat, r: RunId)
    requires Behavior(states, steps) && i < |states| && r < |states[i].runs| && !states[i].runs[r].superFired
    ensures !WasMarkedInTime(states, steps, i, r)
  {
    if j :| 0 <= j < i && MarksInTime(states[j], steps[j], r) {
      ReachableInv(states, steps, j);
      assert RunOk(states[j], steps[j].run) && RunOk(states[j], r);
      NothingIsTakenBack(states, steps, j, i, r);
    }
  }

  /** A run that finds its token fired at its cancel check, is not fired by a
      superseder, finds no other run in its slot and has its own mark written ends as
      cancelled by the user, in its outcome and in its row. */
  lemma UserCancelIsRecorded(states: seq<State>, steps: seq<Step>, c: nat, i: nat, r: RunId)
    requires Behavior(states, steps) && c < i < |states| && steps[c] == Check(r)
    requires r < |states[c].runs| && states[c].runs[r].userFired
    requires r < |states[i].runs| && !states[i].runs[r].superFired && states[i].runs[r].pc.Ended?
    requires !HasSeenOther(states, steps, i, r) && forall j :: 0 <= j < i ==> steps[j] != MarkUser(r, false)
    ensures states[i].runs[r].pc == Ended(Cancelled(None)) && states[i].runs[r].row == CancelledByUser
    ensures !states[i].runs[r].draft
  {
    BehaviorHasPcSteps(states, steps, r);
    CheckLeadsAway(states[c], states[c + 1], r);
    CancelPathStays(states, steps, c + 1, i, r);
    SawNewerMeans(states, steps, i, r);
    assert states[i].runs[r].pc == Ended(Cancelled(None));
    UserMarkOfSteps(states, steps, i, r);
    var j :| 0 <= j < i && MarksUser(steps[j], r);
    UserMarkStays(states, steps, j, i, r);
    DraftExactlyWhenCompleted(states, steps, i, r);
  }

  lemma UserMarkStays(states: seq<State>, steps: seq<Step>, j: nat, i: nat, r: RunId)
    requires Behavior(states, steps) && j < i < |states| && steps[j] == MarkUser(r, true)
    requires r < |states[i].runs| && !states[i].runs[r].superFired
    ensures states[i].runs[r].row == CancelledByUser
  {
    UnfiredIsUnmarked(states, steps, i, r);
    UserMarkLandsExactly(states, steps, j, r);
    NothingIsTakenBack(states, steps, j + 1, i, r);
  }

  predicate AfterFinish(s: State, r: RunId) {
    r < |s.runs| && (s.runs[r].pc == Dropping(Completed) || s.runs[r].pc == Ended(Completed))
  }

  predicate Finishes(step: Step, r: RunId) { step == Finish(r, true) || step == Finish(r, false) }

  lemma FinishMoves(s: State, t: State, step: Step, r: RunId)
    requires PcStep(s, t, step, r)
    ensures AfterFinish(t, r) <==> AfterFinish(s, r) || Finishes(step, r)
  {
  }

  lemma FinishOfSteps(states: seq<State>, steps: seq<Step>, i: nat, r: RunId)
    requires PcSteps(states, steps, r) && i < |states|
    ensures AfterFinish(states[i], r) <==> exists j :: 0 <= j < i && Finishes(steps[j], r)
  {
    var fact := (s: State) => AfterFinish(s, r);
    var cause := (s: State, step: Step) => Finishes(step, r);
    forall j | 0 <= j < |steps| ensures fact(states[j + 1]) <==> fact(states[j]) || cause(states[j], steps[j]) {
      FinishMoves(states[j], states[j + 1], steps[j], r);
    }
    MovedExactly(states, steps, i, fact, cause);
  }

  /** A cancel path is entered by a fired run only. */
  lemma NobodySeenUnfired(states: seq<State>, steps: seq<Step>, i: nat, j: nat, r: RunId)
    requires Behavior(states, steps) && j < i < |states| && r < |states[i].runs| && !states[i].runs[r].Fired()
    ensures !SeesNobody(states[j], steps[j], r)
  {
    if SeesNobody(states[j], steps[j], r) {
      ReachableInv(states, steps, j);
      assert RunOk(states[j], r);
      NothingIsTakenBack(states, steps, j, i, r);
    }
  }

  /** A run nobody fires, whose writes and rendering succeed and that finds no other
      run in its slot ends completed, with its draft and its row. */
  lemma UndisturbedRunCompletes(states: seq<State>, steps: seq<Step>, i: nat, r: RunId)
    requires Behavior(states, steps) && i < |states| && r < |states[i].runs| && states[i].runs[r].pc.Ended?
    requires !states[i].runs[r].Fired() && !HasSeenOther(states, steps, i, r)
    requires forall j :: 0 <= j < i ==> !Fails(steps[j], r) && steps[j] != Finish(r, false)
    ensures states[i].runs[r].pc == Ended(Completed)
    ensures states[i].runs[r].draft && states[i].runs[r].row == RowCompleted
  {
    EndsExactly(states, steps, i, r);
    forall j | 0 <= j < i ensures !SeesNobody(states[j], steps[j], r) { NobodySeenUnfired(states, steps, i, j, r); }
    SomeOutcome(states[i].runs[r].pc.outcome);
    assert states[i].runs[r].pc.outcome == Completed;
    DraftExactlyWhenCompleted(states, steps, i, r);
    CompletedRowIsWritten(states, steps, i, r);
  }

  lemma CompletedRowIsWritten(states: seq<State>, steps: seq<Step>, i: nat, r: RunId)
    requires Behavior(states, steps) && i < |states| && r < |states[i].runs| && states[i].runs[r].pc == Ended(Completed)
    requires !states[i].runs[r].superFired && forall j :: 0 <= j < i ==> steps[j] != Finish(r, false)
    ensures states[i].runs[r].row == RowCompleted
  {
    FinishedRowIsTerminal(states, steps, i, r);
    UnfiredIsUnmarked(states, steps, i, r);
    if states[i].runs[r].row.SupersededBy? { SupersededRowWasMarked(states, steps, i, r); }
    ReachableInv(states, steps, i);
    assert RunOk(states[i], r);
    TerminalRowOfCompleted(states[i].runs[r]);
  }

  lemma TerminalRowOfCompleted(run: Run)
    requires OwnOk(run) && run.pc == Ended(Completed) && run.row.Terminal() && !run.row.SupersededBy?
    ensures run.row == RowCompleted
  {
  }

  lemma FinishedRowIsTerminal(states: seq<State>, steps: seq<Step>, i: nat, r: RunId)
    requires Behavior(states, steps) && i < |states| && r < |states[i].runs| && states[i].runs[r].pc == Ended(Completed)
    requires forall j :: 0 <= j < i ==> steps[j] != Finish(r, false)
    ensures states[i].runs[r].row.Terminal()
  {
    BehaviorHasPcSteps(states, steps, r);
    FinishOfSteps(states, steps, i, r);
    var j :| 0 <= j < i && Finishes(steps[j], r);
    assert SettlesRow(states[j], steps[j], r);
    RowIsTerminalExactly(states, steps, i, r);
  }
}
