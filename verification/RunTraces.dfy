/** Behaviors the comments of the code rule out and the code allows, one
    reachable state each. */
module RunTraces {
  import opened Basics
  import opened RunProtocol

  ghost predicate CanReach(s: State) {
    exists states, steps :: Behavior(states, steps) && states[|steps|] == s
  }

  lemma InitiallyReached()
    ensures CanReach(INITIAL)
  {
    assert Behavior([INITIAL], []);
  }

  lemma Take(s: State, step: Step) returns (t: State)
    requires CanReach(s) && Enabled(s, step)
    ensures t == Apply(s, step) && CanReach(t)
  {
    var states, steps :| Behavior(states, steps) && states[|steps|] == s;
    t := Apply(s, step);
    assert Behavior(states + [t], steps + [step]);
  }

  /** A run at its cancel check that holds its slot, token unfired and row
      `Running`: it completes without any other run moving. */
  lemma CompletesAlone(s: State, r: RunId) returns (t: State)
    requires CanReach(s)
    requires r < |s.runs| && s.runs[r].pc == Checking && s.runs[r].row == Running && !s.runs[r].Fired()
    requires SlotOf(s.slots, s.runs[r].key) == Some(r)
    ensures CanReach(t)
    ensures t == State(s.runs[r := s.runs[r].(pc := Ended(Completed), row := RowCompleted, draft := true)],
                       s.slots - {s.runs[r].key}, s.hist)
  {
    t := ReachesGuard(s, r);
    t := Take(t, Guard(r));
    t := Publishes(t, r);
    assert t.runs == s.runs[r := s.runs[r].(pc := Ended(Completed), row := RowCompleted, draft := true)];
  }

  lemma Publishes(s: State, r: RunId) returns (t: State)
    requires CanReach(s) && r < |s.runs| && s.runs[r].pc == Drafting && s.runs[r].row == Running
    requires SlotOf(s.slots, s.runs[r].key) == Some(r)
    ensures CanReach(t)
    ensures t == State(s.runs[r := s.runs[r].(pc := Ended(Completed), row := RowCompleted, draft := true)],
                       s.slots - {s.runs[r].key}, s.hist)
  {
    t := Take(s, InsertDraft(r, true));
    t := Take(t, Finish(r, true));
    assert t == Next(s, r, s.runs[r].(pc := Dropping(Completed), row := RowCompleted, draft := true));
    t := Take(t, Drop(r));
  }

  lemma ReachesGuard(s: State, r: RunId) returns (t: State)
    requires CanReach(s) && r < |s.runs| && s.runs[r].pc == Checking && !s.runs[r].Fired()
    ensures CanReach(t) && t == Next(s, r, s.runs[r].(pc := Guarding))
  {
    t := Take(s, Check(r));
    t := Take(t, Store(r, true));
    t := Take(t, Render(r, true));
  }

  const KEY := Key(0, 0, "dev_eod")

  /** A run that swaps into an empty slot and has its row. */
  lemma FirstStart(s: State) returns (t: State)
    requires CanReach(s) && KEY !in s.slots
    ensures CanReach(t) && t.runs == s.runs + [Run(KEY, None, Checking, false, false, Running, false, None, false)]
    ensures t.slots == s.slots[KEY := |s.runs|]
    ensures t.hist.insertFailed == s.hist.insertFailed && t.hist.writeFailed == s.hist.writeFailed
  {
    t := Take(s, Start(KEY));
    t := Take(t, Insert(|s.runs|, true));
  }

  /** A run that supersedes the holder of the slot, through its whole start. */
  lemma SecondStart(s: State, p: RunId) returns (t: State)
    requires CanReach(s) && SlotOf(s.slots, KEY) == Some(p) && p < |s.runs| && s.runs[p].row == Running
    ensures CanReach(t) && t.slots == s.slots[KEY := |s.runs|]
    ensures t.runs ==
      s.runs[p := s.runs[p].(superFired := true, row := SupersededBy(|s.runs|), successor := Some(|s.runs|))]
      + [Run(KEY, Some(p), Checking, false, false, Running, false, None, false)]
  {
    var n := |s.runs|;
    t := Take(s, Start(KEY));
    t := Take(t, Fire(n));
    t := Take(t, Insert(n, true));
    t := Take(t, MarkPrior(n, true));
  }

  /** An older run past its cancel check, superseded on its way to the guard. */
  lemma SupersededPastCheck() returns (s: State)
    ensures CanReach(s) && s.slots == map[KEY := 1]
    ensures s.runs == [Run(KEY, None, Guarding, false, true, SupersededBy(1), false, Some(1), false),
                       Run(KEY, Some(0), Checking, false, false, Running, false, None, false)]
  {
    InitiallyReached();
    s := FirstStart(INITIAL);
    s := ReachesGuard(s, 0);
    assert s.runs == [Run(KEY, None, Guarding, false, false, Running, false, None, false)];
    s := SecondStart(s, 0);
  }

  /** The stale draft: the newer run completes and drops its entry, the guard of
      the older run finds an empty slot, and its draft is the last one written. */
  lemma OlderDraftCanLandLast() returns (s: State)
    ensures CanReach(s) && |s.runs| == 2 && s.runs[0].key == s.runs[1].key
    ensures s.runs[1].pc == Ended(Completed) && s.runs[1].draft
    ensures s.runs[0].row == SupersededBy(1) && !s.runs[0].draft && Enabled(s, InsertDraft(0, true))
  {
    s := SupersededPastCheck();
    s := CompletesAlone(s, 1);
    assert s.slots == map[];
    s := Take(s, Guard(0));
  }

  /** A run that has its draft to write, with its slot and no newer run. */
  lemma AloneBeforeDraft() returns (s: State)
    ensures CanReach(s) && s.slots == map[KEY := 0]
    ensures s.runs == [Run(KEY, None, Drafting, false, false, Running, false, None, false)]
  {
    InitiallyReached();
    s := FirstStart(INITIAL);
    s := ReachesGuard(s, 0);
    s := Take(s, Guard(0));
  }

  /** The gap behind the guard: the run is superseded after its guard let it pass,
      and writes its draft while the newer run lives. */
  lemma SupersededBetweenGuardAndDraft() returns (s: State)
    ensures CanReach(s) && |s.runs| == 2 && s.slots == map[KEY := 1] && s.runs[1].Live()
    ensures s.runs[0].row == SupersededBy(1) && s.runs[0].superFired && Enabled(s, InsertDraft(0, true))
  {
    s := AloneBeforeDraft();
    s := SecondStart(s, 0);
  }

  /** Two starts of a key overlap: the newer one runs its whole start, marking
      included, before the older one has inserted its row. */
  lemma OverlappingStarts() returns (s: State)
    ensures CanReach(s) && s.slots == map[KEY := 1] && s.hist == History({}, {}, {KEY})
    ensures s.runs == [Run(KEY, None, Inserting, false, true, NoRow, false, Some(1), true),
                       Run(KEY, Some(0), Checking, false, false, Running, false, None, false)]
  {
    InitiallyReached();
    s := Take(INITIAL, Start(KEY));
    assert s == State([Run(KEY, None, Inserting, false, false, NoRow, false, None, false)],
                      map[KEY := 0], History({}, {}, {}));
    assert StartInProgress(s, KEY) by { assert s.runs[0].Starting(); }
    s := Take(s, Start(KEY));
    assert s == State([Run(KEY, None, Inserting, false, false, NoRow, false, Some(1), false),
                       Run(KEY, Some(0), Firing, false, false, NoRow, false, None, false)],
                      map[KEY := 1], History({}, {}, {KEY}));
    s := Take(s, Fire(1));
    assert s.runs == [Run(KEY, None, Inserting, false, true, NoRow, false, Some(1), false),
                      Run(KEY, Some(0), Inserting, false, false, NoRow, false, None, false)];
    s := Take(s, Insert(1, true));
    s := Take(s, MarkPrior(1, true));
  }

  /** A fired run that finds a newer one in its slot ends without writing its row. */
  lemma YieldsToNewer(s: State, r: RunId, n: RunId) returns (t: State)
    requires CanReach(s) && r < |s.runs| && s.runs[r].pc == Checking && s.runs[r].Fired()
    requires SlotOf(s.slots, s.runs[r].key) == Some(n) && n != r
    ensures CanReach(t) && t == Next(s, r, s.runs[r].(pc := Ended(Cancelled(Some(n)))))
  {
    t := Take(s, Check(r));
    t := Take(t, ReadSlot(r));
    t := Take(t, Drop(r));
  }

  /** The older of two overlapping runs sees the newer one in its slot and never
      writes its own row, which nobody else will write either. */
  lemma OverlapCanLeaveRowRunning() returns (s: State)
    ensures CanReach(s) && |s.runs| == 2
    ensures s.runs[0].pc.Ended? && s.runs[1].pc.Ended? && s.runs[0].row == Running
    ensures s.hist.insertFailed == {} && s.hist.writeFailed == {}
  {
    s := OverlappingStarts();
    s := Take(s, Insert(0, true));
    s := YieldsToNewer(s, 0, 1);
    s := CompletesAlone(s, 1);
  }

  /** Two supersedes before the oldest run looks: its row names the second run and
      its outcome the third. */
  lemma OutcomeCanNameAnotherRun() returns (s: State)
    ensures CanReach(s) && |s.runs| == 3
    ensures s.runs[0].row == SupersededBy(1) && s.runs[0].pc == Ended(Cancelled(Some(2)))
  {
    InitiallyReached();
    s := FirstStart(INITIAL);
    s := SecondStart(s, 0);
    s := SecondStart(s, 1);
    assert s.runs[0].pc == Checking && s.runs[0].Fired();
    s := YieldsToNewer(s, 0, 2);
  }

  /** The older run looks only after the newer one has gone: the slot is empty,
      and a run no user cancelled is recorded as cancelled by the user. */
  lemma OverlapCanBlameTheUser() returns (s: State)
    ensures CanReach(s) && |s.runs| == 2
    ensures s.runs[0].row == CancelledByUser && !s.runs[0].userFired
    ensures s.hist.insertFailed == {} && s.hist.writeFailed == {}
  {
    s := OverlappingStarts();
    s := CompletesAlone(s, 1);
    assert s.runs == [Run(KEY, None, Inserting, false, true, NoRow, false, Some(1), true),
                      Run(KEY, Some(0), Ended(Completed), false, false, RowCompleted, true, None, false)];
    s := Take(s, Insert(0, true));
    s := Take(s, Check(0));
    s := Take(s, ReadSlot(0));
    s := Take(s, MarkUser(0, true));
  }

  /** A run that takes the slot over and fires the holder, and no more. */
  lemma SwapsAndFires(s: State, p: RunId) returns (t: State)
    requires CanReach(s) && SlotOf(s.slots, KEY) == Some(p) && p < |s.runs|
    ensures CanReach(t) && t.slots == s.slots[KEY := |s.runs|]
    ensures t.runs == s.runs[p := s.runs[p].(superFired := true, successor := Some(|s.runs|))]
                      + [Run(KEY, Some(p), Inserting, false, false, NoRow, false, None, false)]
    ensures t.hist.insertFailed == s.hist.insertFailed && t.hist.writeFailed == s.hist.writeFailed
  {
    t := Take(s, Start(KEY));
    t := Take(t, Fire(|s.runs|));
  }

  /** It then inserts its row and finds the holder without one. */
  lemma InsertsAndMissesMark(s: State, r: RunId, p: RunId) returns (t: State)
    requires CanReach(s) && p < r < |s.runs| && s.runs[r].pc == Inserting && s.runs[r].prior == Some(p)
    requires s.runs[p].row == NoRow
    ensures CanReach(t) && t.slots == s.slots && t.hist == s.hist
    ensures t.runs == s.runs[p := s.runs[p].(markMissed := true)][r := s.runs[r].(row := Running, pc := Checking)]
  {
    t := Take(s, Insert(r, true));
    t := Take(t, MarkPrior(r, true));
  }

  /** A superseder that stalls before its insert is superseded itself; the newest
      run completes, and the oldest, marked by nobody, blames the user. */
  lemma StalledSupersederCanBlameTheUser() returns (s: State)
    ensures CanReach(s) && |s.runs| == 3
    ensures s.runs[0].row == CancelledByUser && !s.runs[0].userFired && !s.runs[0].markMissed
    ensures s.runs[1].Starting() && s.hist.insertFailed == {} && s.hist.writeFailed == {}
  {
    s := StalledSuperseder();
    s := InsertsAndMissesMark(s, 2, 1);
    assert s.runs[2] == Run(KEY, Some(1), Checking, false, false, Running, false, None, false);
    s := CompletesAlone(s, 2);
    assert s.runs[0] == Run(KEY, None, Checking, false, true, Running, false, Some(1), false) && s.slots == map[];
    s := BlamesTheUser(s, 0);
  }

  lemma StalledSuperseder() returns (s: State)
    ensures CanReach(s) && s.slots == map[KEY := 2] && s.hist.insertFailed == {} && s.hist.writeFailed == {}
    ensures s.runs == [Run(KEY, None, Checking, false, true, Running, false, Some(1), false),
                       Run(KEY, Some(0), Inserting, false, true, NoRow, false, Some(2), false),
                       Run(KEY, Some(1), Inserting, false, false, NoRow, false, None, false)]
  {
    InitiallyReached();
    s := FirstStart(INITIAL);
    s := SwapsAndFires(s, 0);
    assert s.runs == [Run(KEY, None, Checking, false, true, Running, false, Some(1), false),
                      Run(KEY, Some(0), Inserting, false, false, NoRow, false, None, false)];
    s := SwapsAndFires(s, 1);
  }

  lemma BlamesTheUser(s: State, r: RunId) returns (t: State)
    requires CanReach(s) && r < |s.runs| && s.runs[r].pc == Checking && s.runs[r].Fired() && s.runs[r].row == Running
    requires s.runs[r].key !in s.slots
    ensures CanReach(t) && t == Next(s, r, s.runs[r].(row := CancelledByUser, pc := Dropping(Cancelled(None))))
  {
    t := Take(s, Check(r));
    t := Take(t, ReadSlot(r));
    t := Take(t, MarkUser(r, true));
  }

  /** A failed insert removes whatever entry the slot holds. The run it belonged
      to lives on uncancelled, and so does the next one to start. */
  lemma FailedInsertCanEvictNewerRun() returns (s: State)
    ensures CanReach(s) && |s.runs| == 3
    ensures s.runs[1].key == s.runs[2].key && s.runs[1].pc == Checking && s.runs[2].pc == Checking
    ensures !s.runs[1].Fired() && !s.runs[2].Fired() && s.slots == map[KEY := 2]
  {
    s := OverlappingStarts();
    s := Take(s, Insert(0, false));
    s := Take(s, Evict(0));
    assert s.runs == [Run(KEY, None, Ended(Failed), false, true, NoRow, false, Some(1), true),
                      Run(KEY, Some(0), Checking, false, false, Running, false, None, false)];
    assert s.slots == map[];
    s := FirstStart(s);
  }
}
