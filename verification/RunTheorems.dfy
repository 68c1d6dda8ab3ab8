/** The theorems about the run protocol, each over every behavior. */
module RunTheorems {
  import opened Basics
  import opened RunProtocol
  import opened RunInvariant
  import opened RunSafety

  // ---- one step seen from one run ----

  /** What no step takes back. */
  ghost predicate Persists(s: State, t: State, r: RunId)
    requires r < |s.runs|
  {
    && |s.runs| <= |t.runs|
    && t.runs[r].key == s.runs[r].key
    && t.runs[r].prior == s.runs[r].prior
    && (s.runs[r].userFired ==> t.runs[r].userFired)
    && (s.runs[r].superFired ==> t.runs[r].superFired)
    && (s.runs[r].draft ==> t.runs[r].draft)
    && (s.runs[r].row.Terminal() ==> t.runs[r].row == s.runs[r].row)
    && (s.runs[r].row != NoRow ==> t.runs[r].row != NoRow)
    && (s.runs[r].pc.Ended? ==> t.runs[r].pc == s.runs[r].pc)
  }

  lemma StepPersists(s: State, step: Step, r: RunId)
    requires Inv(s) && Enabled(s, step) && r < |s.runs|
    ensures Persists(s, Apply(s, step), r)
  {
    assert OwnOk(s.runs[r]) by { assert RunOk(s, r); }
    if Plain(step) {
      assert OwnOk(s.runs[step.run]) by { assert RunOk(s, step.run); }
      PlainStepPersists(s, step, r);
    } else if step.Start? {
      StartPersists(s, step.key, r);
    } else if step.Fire? || step.MarkPrior? {
      PairStepPersists(s, step, r);
    }
  }

  lemma StartPersists(s: State, key: Key, r: RunId)
    requires r < |s.runs|
    ensures Persists(s, ApplyStart(s, key), r)
  {
  }

  lemma PairStepPersists(s: State, step: Step, r: RunId)
    requires Enabled(s, step) && (step.Fire? || step.MarkPrior?) && r < |s.runs|
    ensures Persists(s, Apply(s, step), r)
  {
  }

  lemma PlainStepPersists(s: State, step: Step, r: RunId)
    requires Enabled(s, step) && Plain(step) && r < |s.runs| && OwnOk(s.runs[step.run])
    ensures Persists(s, Apply(s, step), r)
  {
    PlainStepIsLocal(s, step);
    PlainStepSettlesOwnRow(s, step);
    PlainStepKeepsDraft(s, step);
  }

  lemma PlainStepKeepsDraft(s: State, step: Step)
    requires Enabled(s, step) && Plain(step)
    ensures var (was, now) := (s.runs[step.run], Apply(s, step).runs[step.run]);
      (was.draft ==> now.draft) && (was.pc.Ended? ==> now.pc == was.pc)
  {
  }

  /** Nothing recorded is ever taken back: a fired token stays fired, a written
      draft stays, a row leaves `Running` at most once, an ended run stays ended. */
  lemma {:induction false} NothingIsTakenBack(states: seq<State>, steps: seq<Step>, i: nat, j: nat, r: RunId)
    requires Behavior(states, steps) && i <= j < |states| && r < |states[i].runs|
    ensures Persists(states[i], states[j], r)
    decreases j
  {
    if i < j {
      NothingIsTakenBack(states, steps, i, j - 1, r);
      ReachableInv(states, steps, j - 1);
      StepPersists(states[j - 1], steps[j - 1], r);
    }
  }

  // ---- drafts and the cancel check ----

  predicate PastCheck(pc: Pc) {
    pc.Storing? || pc.Rendering? || pc.Guarding? || pc.Drafting?
  }

  lemma EntersPastCheck(s: State, step: Step, r: RunId)
    requires Enabled(s, step) && r < |Apply(s, step).runs| && PastCheck(Apply(s, step).runs[r].pc)
    ensures r < |s.runs|
    ensures PastCheck(s.runs[r].pc) || (step == Check(r) && !s.runs[r].Fired())
  {
    if Plain(step) {
      PlainEntersPastCheck(s, step, r);
    } else if step.Start? {
      assert r < |s.runs| ==> ApplyStart(s, step.key).runs[r].pc == s.runs[r].pc;
    }
  }

  lemma PlainEntersPastCheck(s: State, step: Step, r: RunId)
    requires Enabled(s, step) && Plain(step) && r < |s.runs| && PastCheck(Apply(s, step).runs[r].pc)
    ensures PastCheck(s.runs[r].pc) || (step == Check(r) && !s.runs[r].Fired())
  {
    PlainStepIsLocal(s, step);
  }

  lemma {:induction false} CheckCameFirst(states: seq<State>, steps: seq<Step>, i: nat, r: RunId) returns (c: nat)
    requires Behavior(states, steps) && i < |states|
    requires r < |states[i].runs| && PastCheck(states[i].runs[r].pc)
    ensures c < i && steps[c] == Check(r) && r < |states[c].runs| && !states[c].runs[r].Fired()
  {
    assert states[0] == INITIAL;
    EntersPastCheck(states[i - 1], steps[i - 1], r);
    if steps[i - 1] == Check(r) && !states[i - 1].runs[r].Fired() {
      c := i - 1;
    } else {
      c := CheckCameFirst(states, steps, i - 1, r);
    }
  }

  /** Step `j` fires the token of `r`: its superseder does, or the user. */
  ghost predicate FiresToken(s: State, step: Step, r: RunId) {
    || step == UserCancel(r)
    || (step.Fire? && step.run < |s.runs| && s.runs[step.run].prior == Some(r))
  }

  /** A run that writes a draft passed its cancel check, and did so before
      anything fired its token, whatever fired it and however much later. */
  lemma DraftPassedCheckBeforeAnyFire(states: seq<State>, steps: seq<Step>, d: nat, j: nat, r: RunId)
    requires Behavior(states, steps) && d < |steps| && j < |steps|
    requires steps[d] == InsertDraft(r, true) && FiresToken(states[j], steps[j], r)
    ensures exists c :: 0 <= c < d && c < j && steps[c] == Check(r)
  {
    var c := CheckCameFirst(states, steps, d, r);
    if j <= c {
      assert j < c;
      assert states[j + 1].runs[r].Fired();
      NothingIsTakenBack(states, steps, j + 1, c, r);
    }
  }

  /** Once a run has ended, it has a draft exactly when its outcome is Completed. */
  lemma DraftExactlyWhenCompleted(states: seq<State>, steps: seq<Step>, i: nat, r: RunId)
    requires Behavior(states, steps) && i < |states| && r < |states[i].runs| && states[i].runs[r].pc.Ended?
    ensures states[i].runs[r].draft <==> states[i].runs[r].pc.outcome == Completed
  {
    ReachableInv(states, steps, i);
    assert RunOk(states[i], r);
  }

  // ---- supersede ----

  /** A token fired by a superseder: from then on no slot names that run. */
  lemma FiredRunNeverHoldsSlotAgain(states: seq<State>, steps: seq<Step>, i: nat, j: nat, r: RunId)
    requires Behavior(states, steps) && i <= j < |states| && r < |states[i].runs| && states[i].runs[r].superFired
    ensures SlotOf(states[j].slots, states[i].runs[r].key) != Some(r)
  {
    NothingIsTakenBack(states, steps, i, j, r);
    ReachableInv(states, steps, j);
    var t := states[j];
    assert RunOk(t, r);
    assert t.runs[r].key in t.slots ==> SlotOk(t, t.runs[r].key);
  }

  /** The slot never names a run that has ended; it names the last to swap in. */
  lemma SlotNamesLastLiveRun(states: seq<State>, steps: seq<Step>, i: nat, key: Key)
    requires Behavior(states, steps) && i < |states| && key in states[i].slots
    ensures var s := states[i]; var r := s.slots[key];
      && r < |s.runs| && s.runs[r].key == key && s.runs[r].Live()
      && forall x :: r < x < |s.runs| ==> s.runs[x].key != key
  {
    ReachableInv(states, steps, i);
    assert SlotOk(states[i], key);
  }

  ghost predicate LastOfKey(s: State, r: RunId) {
    r < |s.runs| && forall x :: r < x < |s.runs| ==> s.runs[x].key != s.runs[r].key
  }

  /** What the persist-time guard decides. It lets a run through exactly when
      the run is the last of its key to swap in, or when that last run no
      longer holds the slot; the run that stops it is that last run. */
  lemma GuardDecidesBySlot(states: seq<State>, steps: seq<Step>, i: nat, r: RunId, last: RunId)
    requires Behavior(states, steps) && i < |steps| && steps[i] == Guard(r)
    requires LastOfKey(states[i], last) && states[i].runs[last].key == states[i].runs[r].key
    ensures states[i + 1].runs[r].pc ==
      if last == r || SlotOf(states[i].slots, states[i].runs[r].key) != Some(last)
      then Drafting
      else Ended(Cancelled(Some(last)))
  {
    var s := states[i];
    ReachableInv(states, steps, i);
    assert s.runs[r].key in s.slots ==> SlotOk(s, s.runs[r].key);
  }

  /** Without a failed insert, a superseded run gets past the guard exactly when
      the last run of its key has already ended. */
  lemma SupersededRunPassesGuardExactly(states: seq<State>, steps: seq<Step>, i: nat, r: RunId, last: RunId)
    requires Behavior(states, steps) && i < |steps| && steps[i] == Guard(r)
    requires LastOfKey(states[i], last) && last != r && states[i].runs[last].key == states[i].runs[r].key
    requires states[i].runs[r].key !in states[i].hist.insertFailed
    ensures states[i + 1].runs[r].pc == Drafting <==> !states[i].runs[last].Live()
  {
    var s := states[i];
    GuardDecidesBySlot(states, steps, i, r, last);
    ReachableTidy(states, steps, i);
    assert Tidy(s, last) && RunOk(s, last);
    assert s.runs[r].key in s.slots ==> SlotOk(s, s.runs[r].key);
  }

  // ---- rows ----

  /** `superseded_by` points at a row that exists, of the next run of the key. */
  lemma SupersededByPointsForward(states: seq<State>, steps: seq<Step>, i: nat, r: RunId)
    requires Behavior(states, steps) && i < |states| && r < |states[i].runs| && states[i].runs[r].row.SupersededBy?
    ensures var s := states[i]; var n := s.runs[r].row.run;
      && r < n < |s.runs| && s.runs[n].key == s.runs[r].key && s.runs[n].row != NoRow && s.runs[n].prior == Some(r)
      && forall x :: r < x < n ==> s.runs[x].key != s.runs[r].key
  {
    ReachableInv(states, steps, i);
    assert RunOk(states[i], r);
    assert RunOk(states[i], states[i].runs[r].row.run);
  }

  /** The run an outcome names as superseder is the one in the row or a later one. */
  lemma OutcomeNamesRowsRunOrLater(states: seq<State>, steps: seq<Step>, i: nat, r: RunId)
    requires Behavior(states, steps) && i < |states| && r < |states[i].runs|
    requires states[i].runs[r].row.SupersededBy? && SawNewer(states[i].runs[r])
    ensures states[i].runs[r].row.run <= states[i].runs[r].pc.outcome.newer.value
  {
    SupersededByPointsForward(states, steps, i, r);
    ReachableInv(states, steps, i);
    assert RunOk(states[i], r);
  }

  ghost predicate SupersedePath(s: State, path: seq<RunId>) {
    && (forall i :: 0 <= i < |path| ==> path[i] < |s.runs|)
    && (forall i :: 0 <= i < |path| - 1 ==> s.runs[path[i]].row == SupersededBy(path[i + 1]))
  }

  /** Following `superseded_by` never comes back: ids grow along every path. */
  lemma {:induction false} SupersedePathsAreAcyclic(states: seq<State>, steps: seq<Step>, i: nat, path: seq<RunId>,
                                                    a: nat, b: nat)
    requires Behavior(states, steps) && i < |states| && SupersedePath(states[i], path) && a < b < |path|
    ensures path[a] < path[b] && states[i].runs[path[a]].key == states[i].runs[path[b]].key
    decreases b
  {
    assert states[i].runs[path[b - 1]].row == SupersededBy(path[(b - 1) + 1]);
    SupersededByPointsForward(states, steps, i, path[b - 1]);
    if a < b - 1 { SupersedePathsAreAcyclic(states, steps, i, path, a, b - 1); }
  }

  ghost predicate AllEnded(s: State, key: Key) {
    forall r :: 0 <= r < |s.runs| && s.runs[r].key == key ==> s.runs[r].pc.Ended?
  }

  /** When every run of a key has ended and no write of the key failed, a row
      is left `Running` exactly when the run saw a newer one in its slot and
      its successor had tried to mark its row before the row existed. */
  lemma RowLeftRunningByFlags(states: seq<State>, steps: seq<Step>, i: nat, r: RunId)
    requires Behavior(states, steps) && i < |states| && r < |states[i].runs|
    requires AllEnded(states[i], states[i].runs[r].key)
    requires states[i].runs[r].key !in states[i].hist.insertFailed + states[i].hist.writeFailed
    ensures var run := states[i].runs[r];
      && (run.row == Running <==> SawNewer(run) && run.markMissed)
      && (run.row != Running ==> run.row.Terminal())
  {
    var s := states[i];
    ReachableTidy(states, steps, i);
    assert Tidy(s, r) && RunOk(s, r);
    if SawNewer(s.runs[r]) { assert s.runs[s.runs[r].successor.value].pc.Ended?; }
  }

  /** If starts of a key do not overlap and its writes succeed, every row of the
      key is terminal at the end, and reads cancelled by the user only for a run
      whose token the user fired. */
  lemma CleanKeyEndsTerminal(states: seq<State>, steps: seq<Step>, i: nat, r: RunId)
    requires Behavior(states, steps) && i < |states| && r < |states[i].runs|
    requires AllEnded(states[i], states[i].runs[r].key) && Clean(states[i], states[i].runs[r].key)
    ensures states[i].runs[r].row.Terminal()
    ensures states[i].runs[r].row == CancelledByUser ==> states[i].runs[r].userFired
  {
    RowLeftRunningByFlags(states, steps, i, r);
    ReachableTidy(states, steps, i);
    assert Tidy(states[i], r);
  }
}
