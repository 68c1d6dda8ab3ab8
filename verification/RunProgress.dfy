/** Every started run ends, and what the history sets of a state stand for. */
module RunProgress {
  import opened Basics
  import opened RunProtocol
  import opened RunInvariant

  /** An upper bound on the actions a run still takes. */
  function StepsLeft(pc: Pc): nat {
    match pc
    case Firing => 11
    case Inserting => 10
    case Marking => 9
    case Checking => 8
    case Storing => 7
    case Rendering => 6
    case Guarding => 5
    case Drafting => 4
    case ReadingSlot => 3
    case Finishing => 2
    case MarkingUser => 2
    case MarkingFailed => 2
    case Evicting => 1
    case Dropping(_) => 1
    case Ended(_) => 0
  }

  function TotalLeft(runs: seq<Run>): nat {
    if runs == [] then 0 else StepsLeft(runs[0].pc) + TotalLeft(runs[1..])
  }

  lemma {:induction false} UpdateTotal(runs: seq<Run>, r: RunId, now: Run)
    requires r < |runs|
    ensures TotalLeft(runs[r := now]) == TotalLeft(runs) - StepsLeft(runs[r].pc) + StepsLeft(now.pc)
  {
    if r == 0 {
      assert runs[r := now][1..] == runs[1..];
    } else {
      assert runs[r := now][1..] == runs[1..][r - 1 := now];
      UpdateTotal(runs[1..], r - 1, now);
    }
  }

  lemma {:induction false} AppendTotal(runs: seq<Run>, run: Run)
    ensures TotalLeft(runs + [run]) == TotalLeft(runs) + StepsLeft(run.pc)
  {
    if runs == [] {
      assert runs + [run] == [run];
    } else {
      assert (runs + [run])[1..] == runs[1..] + [run];
      AppendTotal(runs[1..], run);
    }
  }

  lemma PairStepShrinks(s: State, r: RunId, nowP: Run, nowR: Run)
    requires r < |s.runs| && PriorOk(s, r) && nowP.pc == s.runs[s.runs[r].prior.value].pc
    ensures TotalLeft(s.runs[s.runs[r].prior.value := nowP][r := nowR])
         == TotalLeft(s.runs) - StepsLeft(s.runs[r].pc) + StepsLeft(nowR.pc)
  {
    UpdateTotal(s.runs, s.runs[r].prior.value, nowP);
    UpdateTotal(s.runs[s.runs[r].prior.value := nowP], r, nowR);
  }

  lemma StartGrows(s: State, key: Key)
    ensures TotalLeft(ApplyStart(s, key).runs) <= TotalLeft(s.runs) + 11
  {
    var t := ApplyStart(s, key);
    var n := |s.runs|;
    var p := SlotOf(s.slots, key);
    if p.Some? && p.value < n {
      UpdateTotal(s.runs, p.value, s.runs[p.value].(successor := Some(n)));
    }
    AppendTotal(t.runs[..n], t.runs[n]);
    assert t.runs == t.runs[..n] + [t.runs[n]];
    assert t.runs[..n] == if p.Some? && p.value < n then s.runs[p.value := s.runs[p.value].(successor := Some(n))]
      else s.runs;
  }

  lemma OwnStepMovesOn(s: State, step: Step)
    requires Enabled(s, step) && !step.Start? && !step.UserCancel? && !step.Fire? && !step.MarkPrior?
    ensures Apply(s, step).runs == s.runs[step.run := Apply(s, step).runs[step.run]]
    ensures StepsLeft(Apply(s, step).runs[step.run].pc) < StepsLeft(s.runs[step.run].pc)
  {
    if Plain(step) {
      PlainStepIsLocal(s, step);
      PlainStepMovesOn(s, step);
    }
  }

  lemma PlainStepMovesOn(s: State, step: Step)
    requires Enabled(s, step) && Plain(step) && !step.UserCancel?
    ensures StepsLeft(Apply(s, step).runs[step.run].pc) < StepsLeft(s.runs[step.run].pc)
  {
    if step.Insert? || step.Check? || step.Store? || step.Render? {
      EarlyStepMovesOn(s, step);
    } else {
      LateStepMovesOn(s, step);
    }
  }

  lemma EarlyStepMovesOn(s: State, step: Step)
    requires Enabled(s, step) && (step.Insert? || step.Check? || step.Store? || step.Render?)
    ensures StepsLeft(Apply(s, step).runs[step.run].pc) < StepsLeft(s.runs[step.run].pc)
  {
  }

  lemma LateStepMovesOn(s: State, step: Step)
    requires Enabled(s, step) && (step.MarkUser? || step.InsertDraft? || step.Finish? || step.MarkFailed?)
    ensures StepsLeft(Apply(s, step).runs[step.run].pc) < StepsLeft(s.runs[step.run].pc)
  {
  }

  lemma PairStepMovesOn(s: State, step: Step)
    requires Enabled(s, step) && (step.Fire? || step.MarkPrior?)
    ensures TotalLeft(Apply(s, step).runs) < TotalLeft(s.runs)
  {
    var (t, r) := (Apply(s, step), step.run);
    PairStepShrinks(s, r, t.runs[s.runs[r].prior.value], t.runs[r]);
  }

  lemma StepShrinks(s: State, step: Step)
    requires Enabled(s, step)
    ensures step.Start? ==> TotalLeft(Apply(s, step).runs) <= TotalLeft(s.runs) + 11
    ensures step.UserCancel? ==> TotalLeft(Apply(s, step).runs) == TotalLeft(s.runs)
    ensures !step.Start? && !step.UserCancel? ==> TotalLeft(Apply(s, step).runs) < TotalLeft(s.runs)
  {
    match step
    case Start(key) => StartGrows(s, key);
    case UserCancel(r) => UpdateTotal(s.runs, r, s.runs[r].(userFired := true));
    case Fire(_) => PairStepMovesOn(s, step);
    case MarkPrior(_, _) => PairStepMovesOn(s, step);
    case _ =>
      OwnStepMovesOn(s, step);
      UpdateTotal(s.runs, step.run, Apply(s, step).runs[step.run]);
  }

  function Starts(steps: seq<Step>): nat {
    if steps == [] then 0 else Starts(steps[..|steps| - 1]) + if steps[|steps| - 1].Start? then 1 else 0
  }

  function Cancels(steps: seq<Step>): nat {
    if steps == [] then 0 else Cancels(steps[..|steps| - 1]) + if steps[|steps| - 1].UserCancel? then 1 else 0
  }

  /** A behavior with n starts and c user cancels has at most 12 n + c steps. */
  lemma {:induction false} BehaviorsAreBounded(states: seq<State>, steps: seq<Step>)
    requires Behavior(states, steps)
    ensures |steps| + TotalLeft(states[|steps|].runs) <= 12 * Starts(steps) + Cancels(steps)
  {
    var n := |steps|;
    if n > 0 {
      var (front, last) := (steps[..n - 1], steps[n - 1]);
      BehaviorsAreBounded(states[..n], front);
      StepShrinks(states[n - 1], last);
      assert Starts(steps) == Starts(front) + if last.Start? then 1 else 0;
      assert Cancels(steps) == Cancels(front) + if last.UserCancel? then 1 else 0;
    }
  }

  /** A live run always has an action of its own to take: with the bound above,
      a behavior that cannot be extended without a start or a user cancel has
      ended every run. */
  lemma LiveRunCanMove(states: seq<State>, steps: seq<Step>, i: nat, r: RunId)
    requires Behavior(states, steps) && i < |states| && r < |states[i].runs| && states[i].runs[r].Live()
    ensures exists step: Step :: !step.Start? && !step.UserCancel? && step.run == r && Enabled(states[i], step)
  {
    ReachableInv(states, steps, i);
    assert RunOk(states[i], r);
    var step := match states[i].runs[r].pc
      case Firing => Fire(r)
      case Inserting => Insert(r, true)
      case Evicting => Evict(r)
      case Marking => MarkPrior(r, true)
      case Checking => Check(r)
      case ReadingSlot => ReadSlot(r)
      case MarkingUser => MarkUser(r, true)
      case Storing => Store(r, true)
      case Rendering => Render(r, true)
      case Guarding => Guard(r)
      case Drafting => InsertDraft(r, true)
      case Finishing => Finish(r, true)
      case MarkingFailed => MarkFailed(r, true)
      case _ => Drop(r);
    assert Enabled(states[i], step);
  }

  // ---- the history sets ----

  ghost predicate InsertFails(s: State, step: Step, key: Key) {
    step.Insert? && !step.ok && step.run < |s.runs| && s.runs[step.run].key == key
  }

  ghost predicate WriteFails(s: State, step: Step, key: Key) {
    && (step.MarkPrior? || step.MarkUser? || step.Store? || step.InsertDraft? || step.Finish? || step.MarkFailed?)
    && !step.ok && step.run < |s.runs| && s.runs[step.run].key == key
  }

  ghost predicate Overlaps(s: State, step: Step, key: Key) {
    step == Start(key) && StartInProgress(s, key)
  }

  lemma StepRecords(s: State, step: Step, key: Key)
    requires Enabled(s, step)
    ensures var h, t := s.hist, Apply(s, step).hist;
      && (key in t.insertFailed <==> key in h.insertFailed || InsertFails(s, step, key))
      && (key in t.writeFailed <==> key in h.writeFailed || WriteFails(s, step, key))
      && (key in t.overlapped <==> key in h.overlapped || Overlaps(s, step, key))
  {
  }

  lemma {:induction false} InsertFailedMeans(states: seq<State>, steps: seq<Step>, i: nat, key: Key)
    requires Behavior(states, steps) && i < |states|
    ensures key in states[i].hist.insertFailed <==> exists j :: 0 <= j < i && InsertFails(states[j], steps[j], key)
  {
    if i > 0 {
      InsertFailedMeans(states, steps, i - 1, key);
      StepRecords(states[i - 1], steps[i - 1], key);
    }
  }

  lemma {:induction false} WriteFailedMeans(states: seq<State>, steps: seq<Step>, i: nat, key: Key)
    requires Behavior(states, steps) && i < |states|
    ensures key in states[i].hist.writeFailed <==> exists j :: 0 <= j < i && WriteFails(states[j], steps[j], key)
  {
    if i > 0 {
      WriteFailedMeans(states, steps, i - 1, key);
      StepRecords(states[i - 1], steps[i - 1], key);
    }
  }

  lemma {:induction false} OverlappedMeans(states: seq<State>, steps: seq<Step>, i: nat, key: Key)
    requires Behavior(states, steps) && i < |states|
    ensures key in states[i].hist.overlapped <==> exists j :: 0 <= j < i && Overlaps(states[j], steps[j], key)
  {
    if i > 0 {
      OverlappedMeans(states, steps, i - 1, key);
      StepRecords(states[i - 1], steps[i - 1], key);
    }
  }

  /** A key is in a history set exactly when some earlier step put it there. */
  lemma HistoryMeans(states: seq<State>, steps: seq<Step>, i: nat, key: Key)
    requires Behavior(states, steps) && i < |states|
    ensures key in states[i].hist.insertFailed <==> exists j :: 0 <= j < i && InsertFails(states[j], steps[j], key)
    ensures key in states[i].hist.writeFailed <==> exists j :: 0 <= j < i && WriteFails(states[j], steps[j], key)
    ensures key in states[i].hist.overlapped <==> exists j :: 0 <= j < i && Overlaps(states[j], steps[j], key)
  {
    InsertFailedMeans(states, steps, i, key);
    WriteFailedMeans(states, steps, i, key);
    OverlappedMeans(states, steps, i, key);
  }
}
