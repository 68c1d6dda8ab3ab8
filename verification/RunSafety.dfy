/** Safety of the run protocol over whole behaviors. */
module RunSafety {
  import opened Basics
  import opened RunProtocol
  import opened RunInvariant

  // ---- invariants that hold of a key until something goes wrong for it ----

  predicate Done(run: Run) {
    Towards(run, Completed) || Towards(run, Failed) || Towards(run, Cancelled(None))
  }

  /** No insert failed: a live run is in its slot or was swapped out. */
  ghost predicate Claimed(s: State, r: RunId)
    requires r < |s.runs|
  {
    var run := s.runs[r];
    run.key !in s.hist.insertFailed ==>
      && (run.Live() && run.successor.None? ==> SlotOf(s.slots, run.key) == Some(r))
      && (SawNewer(run) ==> run.successor.Some?)
      && (run.row == NoRow ==> run.pc.Firing? || run.pc.Inserting?)
      && !run.pc.Evicting?
  }

  /** No write failed: a run past its own terminal write, or past the marking by
      its successor, has a terminal row, unless the marking came too early. */
  ghost predicate Settled(s: State, r: RunId)
    requires r < |s.runs|
  {
    var run := s.runs[r];
    run.key !in s.hist.insertFailed + s.hist.writeFailed ==>
      && (Done(run) ==> run.row.Terminal())
      && (run.successor.Some? && run.successor.value < |s.runs| && !s.runs[run.successor.value].Starting() ==>
            run.row.Terminal() || run.markMissed)
  }

  /** No overlap: only the run of its key that swapped in last can be starting. */
  ghost predicate InTurn(s: State, r: RunId)
    requires r < |s.runs|
  {
    var run := s.runs[r];
    run.key !in s.hist.overlapped ==>
      && (run.Starting() ==> run.successor.None? && forall x :: r < x < |s.runs| ==> s.runs[x].key != run.key)
      && (run.key !in s.hist.insertFailed ==> !run.markMissed)
  }

  ghost predicate Clean(s: State, key: Key) {
    key !in s.hist.insertFailed && key !in s.hist.writeFailed && key !in s.hist.overlapped
  }

  /** Nothing went wrong: a run that takes the user path without the user
      having fired its token already has the row its successor wrote. */
  ghost predicate Attributed(s: State, r: RunId)
    requires r < |s.runs|
  {
    var run := s.runs[r];
    Clean(s, run.key) ==>
      && (run.pc.MarkingUser? ==> run.userFired || run.row.Terminal())
      && (run.row == CancelledByUser ==> run.userFired)
  }

  ghost predicate Tidy(s: State, r: RunId)
    requires r < |s.runs|
  {
    Claimed(s, r) && Settled(s, r) && InTurn(s, r) && Attributed(s, r)
  }

  ghost predicate TidyInv(s: State) {
    Inv(s) && forall r :: 0 <= r < |s.runs| ==> Tidy(s, r)
  }

  lemma StartKeepsTidy(s: State, key: Key, x: RunId)
    requires Inv(s) && x < |s.runs| && Tidy(s, x)
    ensures Tidy(ApplyStart(s, key), x)
  {
    var t := ApplyStart(s, key);
    assert RunOk(s, x);
    if key in s.slots { assert SlotOk(s, key); }
    assert t.runs[x] == s.runs[x].(successor := t.runs[x].successor);
    if s.runs[x].successor.Some? {
      assert t.runs[x].successor == s.runs[x].successor;
      assert t.runs[s.runs[x].successor.value].pc == s.runs[s.runs[x].successor.value].pc;
    }
    assert InTurn(t, x);
    assert Claimed(t, x);
    assert Settled(t, x);
  }

  lemma FireKeepsTidy(s: State, r: RunId, x: RunId)
    requires Inv(s) && Enabled(s, Fire(r)) && x < |s.runs| && Tidy(s, x)
    ensures Tidy(ApplyFire(s, r), x)
  {
    assert RunOk(s, x);
  }

  lemma MarkKeepsClaimed(s: State, r: RunId, ok: bool, x: RunId)
    requires Inv(s) && Enabled(s, MarkPrior(r, ok)) && x < |s.runs| && Claimed(s, x)
    ensures Claimed(ApplyMarkPrior(s, r, ok), x)
  {
    assert RunOk(s, x) && RunOk(s, r);
  }

  lemma MarkKeepsSettled(s: State, r: RunId, ok: bool, x: RunId)
    requires Inv(s) && Enabled(s, MarkPrior(r, ok)) && x < |s.runs| && Tidy(s, x)
    ensures Settled(ApplyMarkPrior(s, r, ok), x)
  {
    assert RunOk(s, x) && RunOk(s, r);
  }

  lemma MarkKeepsTidy(s: State, r: RunId, ok: bool, x: RunId)
    requires Inv(s) && Enabled(s, MarkPrior(r, ok)) && x < |s.runs| && Tidy(s, x)
    ensures Tidy(ApplyMarkPrior(s, r, ok), x)
  {
    MarkKeepsClaimed(s, r, ok, x);
    MarkKeepsSettled(s, r, ok, x);
    assert RunOk(s, x) && RunOk(s, r);
  }

  lemma EndKeepsTidy(s: State, step: Step, x: RunId)
    requires Inv(s) && Enabled(s, step) && (step.Evict? || step.Drop?) && x < |s.runs| && Tidy(s, x)
    requires Tidy(s, step.run)
    ensures Tidy(Apply(s, step), x)
  {
    assert RunOk(s, x);
  }

  lemma PlainStepKeepsClaimed(s: State, step: Step, x: RunId)
    requires Inv(s) && Enabled(s, step) && Plain(step) && x < |s.runs| && Claimed(s, x)
    ensures Claimed(Apply(s, step), x)
  {
    assert RunOk(s, x) && RunOk(s, step.run);
    PlainStepFollows(s, step);
    assert Apply(s, step).hist.insertFailed >= s.hist.insertFailed;
  }

  lemma PlainStepKeepsTurn(s: State, step: Step, x: RunId)
    requires Inv(s) && Enabled(s, step) && Plain(step) && x < |s.runs| && InTurn(s, x)
    ensures InTurn(Apply(s, step), x)
  {
    var t := Apply(s, step);
    assert RunOk(s, step.run);
    PlainStepFollows(s, step);
    assert t.hist.insertFailed >= s.hist.insertFailed && t.hist.overlapped == s.hist.overlapped;
    assert forall y :: 0 <= y < |s.runs| ==> t.runs[y].key == s.runs[y].key;
  }

  lemma PlainStepSettlesOwnRow(s: State, step: Step)
    requires Enabled(s, step) && Plain(step) && OwnOk(s.runs[step.run])
    ensures var (was, now, t) := (s.runs[step.run], Apply(s, step).runs[step.run], Apply(s, step));
      && (Done(now) && !Done(was) && was.key !in t.hist.writeFailed && was.row != NoRow ==> now.row.Terminal())
      && (was.row.Terminal() ==> now.row == was.row)
      && (now.row == CancelledByUser ==> (was.pc.MarkingUser? && was.row == Running) || was.row == now.row)
      && (now.pc.MarkingUser? ==> was.pc.MarkingUser?)
      && (was.userFired ==> now.userFired)
  {
  }

  lemma PlainStepKeepsSettled(s: State, step: Step, x: RunId)
    requires Inv(s) && Enabled(s, step) && Plain(step) && x < |s.runs| && Settled(s, x) && Claimed(s, x)
    ensures Settled(Apply(s, step), x)
  {
    assert RunOk(s, x) && RunOk(s, step.run);
    PlainStepFollows(s, step);
    PlainStepSettlesOwnRow(s, step);
    PlainStepRecordsMore(s, step);
    LocalStepKeepsSettled(s, Apply(s, step), step.run, x);
  }

  lemma PlainStepRecordsMore(s: State, step: Step)
    requires Enabled(s, step) && Plain(step)
    ensures s.hist.insertFailed <= Apply(s, step).hist.insertFailed
    ensures s.hist.writeFailed <= Apply(s, step).hist.writeFailed
  {
  }

  lemma LocalStepKeepsSettled(s: State, t: State, r: RunId, x: RunId)
    requires r < |s.runs| && x < |s.runs| && |t.runs| == |s.runs| && RunOk(s, x) && Settled(s, x) && Claimed(s, x)
    requires t == State(s.runs[r := t.runs[r]], s.slots, t.hist) && Follows(s.runs[r], t.runs[r])
    requires s.hist.insertFailed <= t.hist.insertFailed && s.hist.writeFailed <= t.hist.writeFailed
    requires var (was, now) := (s.runs[r], t.runs[r]);
      && (Done(now) && !Done(was) && was.key !in t.hist.writeFailed && was.row != NoRow ==> now.row.Terminal())
      && (was.row.Terminal() ==> now.row == was.row)
      && (Done(now) && !Done(was) && was.row == NoRow ==> was.key in t.hist.insertFailed)
      && (was.Starting() && was.prior.Some? ==> now.Starting())
    ensures Settled(t, x)
  {
  }

  lemma PlainStepKeepsAttributed(s: State, step: Step, x: RunId)
    requires Inv(s) && Enabled(s, step) && Plain(step) && x < |s.runs| && Attributed(s, x)
    ensures Attributed(Apply(s, step), x)
  {
    assert RunOk(s, step.run);
    PlainStepFollows(s, step);
    PlainStepSettlesOwnRow(s, step);
  }

  lemma GuardKeepsTidy(s: State, r: RunId, x: RunId)
    requires Inv(s) && Enabled(s, Guard(r)) && x < |s.runs| && Tidy(s, x)
    ensures Tidy(Apply(s, Guard(r)), x)
  {
    assert RunOk(s, x) && RunOk(s, r);
  }

  lemma ReadKeepsTidy(s: State, r: RunId, x: RunId)
    requires TidyInv(s) && Enabled(s, ReadSlot(r)) && x < |s.runs|
    ensures Tidy(Apply(s, ReadSlot(r)), x)
  {
    assert RunOk(s, x) && RunOk(s, r) && Tidy(s, x);
    if x == r && Clean(s, s.runs[r].key) && !s.runs[r].userFired && SupersededByNow(s.slots, s.runs[r].key, r).None? {
      UnownedRowIsMarked(s, r);
    }
  }

  /** A swapped-out run whose slot does not name a newer run: its successor is
      past the whole start sequence, marking included. */
  lemma UnownedRowIsMarked(s: State, r: RunId)
    requires TidyInv(s) && r < |s.runs| && Clean(s, s.runs[r].key) && s.runs[r].superFired
    requires SupersededByNow(s.slots, s.runs[r].key, r).None?
    ensures s.runs[r].row.Terminal()
  {
    assert RunOk(s, r) && Tidy(s, r);
    var n := s.runs[r].successor.value;
    assert RunOk(s, n) && Tidy(s, n);
    SlotsAreOk(s, s.runs[r].key);
  }

  lemma SlotsAreOk(s: State, key: Key)
    requires Inv(s)
    ensures key in s.slots ==> SlotOk(s, key)
  {
  }

  lemma NewRunIsTidy(s: State, key: Key)
    requires Inv(s)
    ensures Tidy(ApplyStart(s, key), |s.runs|)
  {
  }

  lemma StepKeepsTidyRun(s: State, step: Step, x: RunId)
    requires TidyInv(s) && Enabled(s, step) && x < |s.runs|
    ensures |Apply(s, step).runs| >= |s.runs| && Tidy(Apply(s, step), x)
  {
    assert Tidy(s, x);
    if Plain(step) { PlainStepKeepsTidy(s, step, x); } else { LinkingStepKeepsTidy(s, step, x); }
  }

  lemma LinkingStepKeepsTidy(s: State, step: Step, x: RunId)
    requires TidyInv(s) && Enabled(s, step) && !Plain(step) && x < |s.runs| && Tidy(s, x)
    ensures |Apply(s, step).runs| >= |s.runs| && Tidy(Apply(s, step), x)
  {
    match step
    case Start(key) => StartKeepsTidy(s, key, x);
    case Fire(r) => FireKeepsTidy(s, r, x);
    case MarkPrior(r, ok) => MarkKeepsTidy(s, r, ok, x);
    case ReadSlot(r) => ReadKeepsTidy(s, r, x);
    case Guard(r) => GuardKeepsTidy(s, r, x);
    case Evict(r) => assert Tidy(s, r); EndKeepsTidy(s, step, x);
    case Drop(r) => assert Tidy(s, r); EndKeepsTidy(s, step, x);
  }

  lemma PlainStepKeepsTidy(s: State, step: Step, x: RunId)
    requires Inv(s) && Enabled(s, step) && Plain(step) && x < |s.runs| && Tidy(s, x)
    ensures |Apply(s, step).runs| >= |s.runs| && Tidy(Apply(s, step), x)
  {
    PlainStepKeepsClaimed(s, step, x);
    PlainStepKeepsTurn(s, step, x);
    PlainStepKeepsSettled(s, step, x);
    PlainStepKeepsAttributed(s, step, x);
  }

  lemma {:induction false} ReachableTidy(states: seq<State>, steps: seq<Step>, i: nat)
    requires Behavior(states, steps) && i < |states|
    ensures TidyInv(states[i])
  {
    if i > 0 {
      ReachableTidy(states, steps, i - 1);
      var (s, step, t) := (states[i - 1], steps[i - 1], states[i]);
      StepKeepsInv(s, step);
      forall x | 0 <= x < |t.runs| ensures Tidy(t, x) {
        if x < |s.runs| { StepKeepsTidyRun(s, step, x); } else { NewRunIsTidy(s, step.key); }
      }
    }
  }
}
