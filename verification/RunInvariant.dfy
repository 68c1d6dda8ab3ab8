/** What holds in every reachable state of the run protocol, whatever fails. */
module RunInvariant {
  import opened Basics
  import opened RunProtocol

  /** A slot names the run of its key that swapped in last, and that run lives. */
  ghost predicate SlotOk(s: State, k: Key)
    requires k in s.slots
  {
    && s.slots[k] < |s.runs|
    && s.runs[s.slots[k]].key == k
    && s.runs[s.slots[k]].Live()
    && forall r :: s.slots[k] < r < |s.runs| ==> s.runs[r].key != k
  }

  predicate Towards(run: Run, outcome: Outcome) {
    run.pc == Dropping(outcome) || run.pc == Ended(outcome)
  }

  /** The run saw another run in its slot at its cancel path or its guard. */
  predicate SawNewer(run: Run) {
    (run.pc.Dropping? || run.pc.Ended?) && run.pc.outcome.Cancelled? && run.pc.outcome.newer.Some?
  }

  predicate HasNoRowYet(run: Run) {
    run.pc.Firing? || run.pc.Inserting? || run.pc.Evicting?
  }

  /** The part of the invariant that looks at one run alone. */
  predicate OwnOk(run: Run) {
    && (run.pc.Firing? || run.pc.Marking? ==> run.prior.Some?)
    && (run.pc.ReadingSlot? || run.pc.MarkingUser? ==> run.Fired())
    && (HasNoRowYet(run) ==> run.row == NoRow)
    && (run.row == NoRow ==> HasNoRowYet(run) || run.pc == Ended(Failed))
    && (run.row == RowCompleted ==> Towards(run, Completed))
    && (run.row == RowFailed ==> Towards(run, Failed))
    && (run.row == CancelledByUser ==> Towards(run, Cancelled(None)))
    && (run.draft <==> run.pc == Finishing || Towards(run, Completed))
    && (run.row.SupersededBy? ==> run.successor == Some(run.row.run))
    && (run.superFired || run.markMissed ==> run.successor.Some?)
    && !(run.markMissed && run.row.SupersededBy?)
  }

  /** A run's prior is the run of its key that swapped in just before it. */
  ghost predicate PriorLink(s: State, r: RunId)
    requires r < |s.runs|
  {
    var run := s.runs[r];
    run.prior.Some? ==>
      && run.prior.value < r
      && s.runs[run.prior.value].key == run.key
      && s.runs[run.prior.value].successor == Some(r)
      && forall x :: run.prior.value < x < r ==> s.runs[x].key != run.key
  }

  /** A successor fired the run's token after its swap, and marked the row of
      the run only after its own row existed. */
  ghost predicate SuccessorLink(s: State, r: RunId)
    requires r < |s.runs|
  {
    var run := s.runs[r];
    && (run.successor.Some? ==>
          && r < run.successor.value < |s.runs|
          && var next := s.runs[run.successor.value];
             && next.prior == Some(r)
             && next.key == run.key
             && (run.superFired <==> !next.pc.Firing?)
             && (run.row.SupersededBy? || run.markMissed ==> next.row != NoRow && !next.Starting()))
    && (SawNewer(run) ==>
          && r < run.pc.outcome.newer.value < |s.runs|
          && s.runs[run.pc.outcome.newer.value].key == run.key)
  }

  ghost predicate RunOk(s: State, r: RunId)
    requires r < |s.runs|
  {
    OwnOk(s.runs[r]) && PriorLink(s, r) && SuccessorLink(s, r)
  }

  ghost predicate Inv(s: State) {
    && (forall k :: k in s.slots ==> SlotOk(s, k))
    && (forall r :: 0 <= r < |s.runs| ==> RunOk(s, r))
  }

  // ---- steps that change one run and no link ----

  /** `now` may follow `was` without disturbing what other runs rely on. */
  predicate Follows(was: Run, now: Run) {
    && now.key == was.key && now.prior == was.prior && now.successor == was.successor
    && now.superFired == was.superFired && now.markMissed == was.markMissed
    && (now.row.SupersededBy? ==> was.row == now.row)
    && now.pc.Firing? == was.pc.Firing?
    && (now.Starting() ==> was.Starting())
    && (was.row != NoRow ==> now.row != NoRow)
  }

  /** The new newer-run reference of a run that just looked at its slot. */
  ghost predicate NewerOk(s: State, r: RunId, now: Run)
    requires r < |s.runs|
  {
    SawNewer(now) ==>
      && r < now.pc.outcome.newer.value < |s.runs|
      && s.runs[now.pc.outcome.newer.value].key == now.key
  }

  lemma LocalStepKeepsRun(s: State, r: RunId, now: Run, slots: map<Key, RunId>, hist: History, x: RunId)
    requires r < |s.runs| && x < |s.runs| && RunOk(s, x) && RunOk(s, r)
    requires Follows(s.runs[r], now) && OwnOk(now) && NewerOk(s, r, now)
    ensures RunOk(State(s.runs[r := now], slots, hist), x)
  {
    var t := State(s.runs[r := now], slots, hist);
    assert forall y :: 0 <= y < |s.runs| ==> t.runs[y].key == s.runs[y].key;
    assert PriorLink(t, x);
    assert SuccessorLink(t, x);
  }

  lemma LocalStepKeepsSlot(s: State, r: RunId, now: Run, hist: History, k: Key)
    requires r < |s.runs| && k in s.slots && SlotOk(s, k)
    requires now.key == s.runs[r].key && (s.slots[k] == r ==> now.Live())
    ensures SlotOk(State(s.runs[r := now], s.slots, hist), k)
  {
  }

  lemma LocalStepKeepsInv(s: State, r: RunId, now: Run, hist: History)
    requires Inv(s) && r < |s.runs|
    requires Follows(s.runs[r], now) && OwnOk(now) && NewerOk(s, r, now)
    requires SlotOf(s.slots, now.key) == Some(r) ==> now.Live()
    ensures Inv(State(s.runs[r := now], s.slots, hist))
  {
    var t := State(s.runs[r := now], s.slots, hist);
    assert RunOk(s, r);
    forall k | k in t.slots ensures SlotOk(t, k) { LocalStepKeepsSlot(s, r, now, hist, k); }
    forall x | 0 <= x < |t.runs| ensures RunOk(t, x) { LocalStepKeepsRun(s, r, now, s.slots, hist, x); }
  }

  /** An ending run takes its own entry out of the map, or any entry of its key. */
  lemma EndingStepKeepsInv(s: State, r: RunId, now: Run, slots: map<Key, RunId>)
    requires Inv(s) && r < |s.runs|
    requires Follows(s.runs[r], now) && OwnOk(now) && NewerOk(s, r, now)
    requires slots == s.slots - {now.key} || (slots == s.slots && SlotOf(s.slots, now.key) != Some(r))
    ensures Inv(AfterMap(s, r, now, slots))
  {
    var t := AfterMap(s, r, now, slots);
    assert RunOk(s, r);
    forall k | k in t.slots ensures SlotOk(t, k) { assert SlotOk(s, k); }
    forall x | 0 <= x < |t.runs| ensures RunOk(t, x) { LocalStepKeepsRun(s, r, now, slots, s.hist, x); }
  }

  /** A run that finds another run in its slot was swapped out, by a later run. */
  lemma SeenRunIsNewer(s: State, r: RunId)
    requires Inv(s) && r < |s.runs|
    requires SupersededByNow(s.slots, s.runs[r].key, r).Some?
    ensures var n := s.slots[s.runs[r].key]; r < n < |s.runs| && s.runs[n].key == s.runs[r].key
  {
    assert SlotOk(s, s.runs[r].key);
  }

  // ---- every step keeps the invariant ----

  /** What a start changes in the older runs: at most one successor, from none. */
  ghost predicate OnlyNamesSuccessor(s: State, t: State) {
    && |t.runs| == |s.runs| + 1
    && forall y :: 0 <= y < |s.runs| ==> t.runs[y] == s.runs[y].(successor := t.runs[y].successor)
  }

  lemma StartKeepsRun(s: State, t: State, x: RunId)
    requires OnlyNamesSuccessor(s, t) && x < |s.runs| && RunOk(s, x)
    requires forall y :: 0 <= y < |s.runs| && s.runs[y].successor.Some? ==> t.runs[y].successor == s.runs[y].successor
    requires t.runs[x].successor == s.runs[x].successor
      || (t.runs[x].successor == Some(|s.runs|) && t.runs[|s.runs|].prior == Some(x)
          && t.runs[|s.runs|].key == s.runs[x].key && t.runs[|s.runs|].pc.Firing?)
    ensures RunOk(t, x)
  {
    assert OwnOk(t.runs[x]);
    assert PriorLink(t, x);
    assert SuccessorLink(t, x);
  }

  lemma StartKeepsSlot(s: State, key: Key, k: Key)
    requires Inv(s) && k in ApplyStart(s, key).slots
    ensures SlotOk(ApplyStart(s, key), k)
  {
    var t := ApplyStart(s, key);
    if k != key { assert SlotOk(s, k); }
    if key in s.slots { assert SlotOk(s, key); }
    assert forall y :: 0 <= y < |s.runs| ==> t.runs[y].key == s.runs[y].key && t.runs[y].pc == s.runs[y].pc;
  }

  lemma LiveSlotHasNoSuccessor(s: State, key: Key)
    requires Inv(s) && key in s.slots
    ensures s.slots[key] < |s.runs| && s.runs[s.slots[key]].successor.None?
  {
    assert SlotOk(s, key) && RunOk(s, s.slots[key]);
  }

  /** The run swapped in has the last run of its key, if live in its slot, as prior. */
  lemma StartKeepsInv(s: State, key: Key)
    requires Inv(s)
    ensures Inv(ApplyStart(s, key))
  {
    var t := ApplyStart(s, key);
    var n := |s.runs|;
    if key in s.slots { LiveSlotHasNoSuccessor(s, key); }
    forall k | k in t.slots ensures SlotOk(t, k) { StartKeepsSlot(s, key, k); }
    forall x | 0 <= x < |t.runs| ensures RunOk(t, x) {
      if x < n {
        assert RunOk(s, x);
        StartKeepsRun(s, t, x);
      }
      else if key in s.slots {
        assert SlotOk(s, key);
        assert forall y :: 0 <= y < n ==> t.runs[y].key == s.runs[y].key;
        assert PriorLink(t, n);
      }
    }
  }

  /** A starting run `r` fires the token of its prior, or marks its row. */
  predicate PairFollows(s: State, r: RunId, nowP: Run, nowR: Run)
    requires r < |s.runs| && PriorOk(s, r)
  {
    var (wasP, wasR) := (s.runs[s.runs[r].prior.value], s.runs[r]);
    && nowP.key == wasP.key && nowP.prior == wasP.prior && nowP.successor == wasP.successor && nowP.pc == wasP.pc
    && (wasP.row == NoRow <==> nowP.row == NoRow)
    && nowR == wasR.(pc := nowR.pc)
    && (nowR.Starting() ==> wasR.Starting())
    && (nowR.pc.Inserting? || nowR.pc.Checking?)
    && nowP.superFired
    && (nowP.row.SupersededBy? || nowP.markMissed ==> nowR.row != NoRow && !nowR.Starting())
  }

  ghost predicate PairOnly(s: State, t: State, r: RunId)
    requires r < |s.runs| && PriorOk(s, r)
  {
    var p := s.runs[r].prior.value;
    && |t.runs| == |s.runs|
    && PairFollows(s, r, t.runs[p], t.runs[r])
    && OwnOk(t.runs[p]) && OwnOk(t.runs[r])
    && (forall y :: 0 <= y < |s.runs| && y != p && y != r ==> t.runs[y] == s.runs[y])
    && (forall y :: 0 <= y < |s.runs| ==> t.runs[y].key == s.runs[y].key)
  }

  lemma PairStepKeepsPriorLink(s: State, t: State, r: RunId, x: RunId)
    requires x < |s.runs| && r < |s.runs| && PriorOk(s, r) && PairOnly(s, t, r) && PriorLink(s, x)
    ensures PriorLink(t, x)
  {
  }

  lemma PairStepKeepsSuccessorLink(s: State, t: State, r: RunId, x: RunId)
    requires x < |s.runs| && r < |s.runs| && PriorOk(s, r) && PairOnly(s, t, r)
    requires SuccessorLink(s, x) && PriorLink(s, r)
    ensures SuccessorLink(t, x)
  {
    var p := s.runs[r].prior.value;
    if x == p {
      assert t.runs[p].successor == Some(r);
    } else if x == r {
    } else if s.runs[x].successor.Some? {
      assert s.runs[x].successor.value != r;
    }
  }

  lemma PairStepKeepsRun(s: State, t: State, r: RunId, x: RunId)
    requires x < |s.runs| && r < |s.runs| && PriorOk(s, r) && PairOnly(s, t, r)
    requires RunOk(s, x) && PriorLink(s, r)
    ensures RunOk(t, x)
  {
    PairStepKeepsPriorLink(s, t, r, x);
    PairStepKeepsSuccessorLink(s, t, r, x);
  }

  lemma PairStepKeepsInv(s: State, t: State, r: RunId)
    requires Inv(s) && r < |s.runs| && PriorOk(s, r) && t.slots == s.slots && PairOnly(s, t, r)
    ensures Inv(t)
  {
    assert RunOk(s, r);
    forall k | k in t.slots ensures SlotOk(t, k) { assert SlotOk(s, k); }
    forall x | 0 <= x < |t.runs| ensures RunOk(t, x) {
      assert RunOk(s, x);
      PairStepKeepsRun(s, t, r, x);
    }
  }

  lemma FireKeepsInv(s: State, r: RunId)
    requires Inv(s) && Enabled(s, Fire(r))
    ensures Inv(ApplyFire(s, r))
  {
    assert RunOk(s, r) && RunOk(s, s.runs[r].prior.value);
    PairStepKeepsInv(s, ApplyFire(s, r), r);
  }

  lemma MarkKeepsInv(s: State, r: RunId, ok: bool)
    requires Inv(s) && Enabled(s, MarkPrior(r, ok))
    ensures Inv(ApplyMarkPrior(s, r, ok))
  {
    assert RunOk(s, r) && RunOk(s, s.runs[r].prior.value);
    PairStepKeepsInv(s, ApplyMarkPrior(s, r, ok), r);
  }

  lemma LookingStepKeepsInv(s: State, step: Step)
    requires Inv(s) && Enabled(s, step) && (step.ReadSlot? || step.Guard?)
    ensures Inv(Apply(s, step))
  {
    var r := step.run;
    assert RunOk(s, r);
    if SupersededByNow(s.slots, s.runs[r].key, r).Some? { SeenRunIsNewer(s, r); }
    LookingStepFollows(s, step);
    LocalStepKeepsInv(s, r, Apply(s, step).runs[r], s.hist);
  }

  lemma LookingStepFollows(s: State, step: Step)
    requires Enabled(s, step) && (step.ReadSlot? || step.Guard?) && OwnOk(s.runs[step.run])
    ensures var (r, t) := (step.run, Apply(s, step));
      t == State(s.runs[r := t.runs[r]], s.slots, s.hist) && Follows(s.runs[r], t.runs[r]) && OwnOk(t.runs[r])
  {
  }

  lemma EndKeepsInv(s: State, step: Step)
    requires Inv(s) && Enabled(s, step) && (step.Evict? || step.Drop?)
    ensures Inv(Apply(s, step))
  {
    var r := step.run;
    assert RunOk(s, r);
    EndingStepKeepsInv(s, r, Apply(s, step).runs[r], Apply(s, step).slots);
  }

  predicate Plain(step: Step) {
    && !step.Start? && !step.Fire? && !step.MarkPrior?
    && !step.ReadSlot? && !step.Guard? && !step.Evict? && !step.Drop?
  }

  lemma PlainStepIsLocal(s: State, step: Step)
    requires Enabled(s, step) && Plain(step)
    ensures var (r, t) := (step.run, Apply(s, step));
      t == State(s.runs[r := t.runs[r]], s.slots, t.hist) && Follows(s.runs[r], t.runs[r])
  {
  }

  lemma PlainStepKeepsOwn(s: State, step: Step)
    requires Enabled(s, step) && Plain(step) && OwnOk(s.runs[step.run])
    ensures OwnOk(Apply(s, step).runs[step.run])
  {
    if step.MarkUser? || step.Finish? || step.MarkFailed? {
      WritingStepKeepsOwn(s, step);
    } else if step.Insert? || step.Check? || step.UserCancel? {
      EarlyStepKeepsOwn(s, step);
    } else {
      MovingStepKeepsOwn(s, step);
    }
  }

  lemma WritingStepKeepsOwn(s: State, step: Step)
    requires Enabled(s, step) && (step.MarkUser? || step.Finish? || step.MarkFailed?) && OwnOk(s.runs[step.run])
    ensures OwnOk(Apply(s, step).runs[step.run])
  {
  }

  lemma EarlyStepKeepsOwn(s: State, step: Step)
    requires Enabled(s, step) && (step.Insert? || step.Check? || step.UserCancel?) && OwnOk(s.runs[step.run])
    ensures OwnOk(Apply(s, step).runs[step.run])
  {
  }

  lemma MovingStepKeepsOwn(s: State, step: Step)
    requires Enabled(s, step) && (step.Store? || step.Render? || step.InsertDraft?) && OwnOk(s.runs[step.run])
    ensures OwnOk(Apply(s, step).runs[step.run])
  {
  }

  lemma PlainStepSeesNobody(s: State, step: Step)
    requires Enabled(s, step) && Plain(step)
    ensures var (was, now) := (s.runs[step.run], Apply(s, step).runs[step.run]);
      (SawNewer(now) ==> now.pc == was.pc) && (was.Live() ==> now.Live())
  {
  }

  lemma PlainStepFollows(s: State, step: Step)
    requires Enabled(s, step) && Plain(step) && OwnOk(s.runs[step.run])
    ensures var (r, t) := (step.run, Apply(s, step));
      && t == State(s.runs[r := t.runs[r]], s.slots, t.hist)
      && Follows(s.runs[r], t.runs[r]) && OwnOk(t.runs[r])
      && (SawNewer(t.runs[r]) ==> t.runs[r].pc == s.runs[r].pc)
      && (s.runs[r].Live() ==> t.runs[r].Live())
  {
    PlainStepIsLocal(s, step);
    PlainStepKeepsOwn(s, step);
    PlainStepSeesNobody(s, step);
  }

  lemma PlainStepKeepsInv(s: State, step: Step)
    requires Inv(s) && Enabled(s, step) && Plain(step)
    ensures Inv(Apply(s, step))
  {
    var r := step.run;
    assert RunOk(s, r);
    PlainStepFollows(s, step);
    if SlotOf(s.slots, s.runs[r].key) == Some(r) { assert SlotOk(s, s.runs[r].key); }
    LocalStepKeepsInv(s, r, Apply(s, step).runs[r], Apply(s, step).hist);
  }

  lemma StepKeepsInv(s: State, step: Step)
    requires Inv(s) && Enabled(s, step)
    ensures Inv(Apply(s, step))
  {
    match step
    case Start(key) => StartKeepsInv(s, key);
    case Fire(r) => FireKeepsInv(s, r);
    case MarkPrior(r, ok) => MarkKeepsInv(s, r, ok);
    case ReadSlot(_) => LookingStepKeepsInv(s, step);
    case Guard(_) => LookingStepKeepsInv(s, step);
    case Evict(_) => EndKeepsInv(s, step);
    case Drop(_) => EndKeepsInv(s, step);
    case _ => PlainStepKeepsInv(s, step);
  }

  lemma {:induction false} ReachableInv(states: seq<State>, steps: seq<Step>, i: nat)
    requires Behavior(states, steps) && i < |states|
    ensures Inv(states[i])
  {
    if i > 0 {
      ReachableInv(states, steps, i - 1);
      StepKeepsInv(states[i - 1], steps[i - 1]);
    }
  }
}
