/** What every run of the token protocol promises. */
module OAuthTheorems {
  import opened Basics
  import opened OAuth
  import opened OAuthProtocol

  // ---- one more entry in the log ----

  lemma Snoc(p: Pair, log: seq<Event>, e: Event)
    ensures (log + [e])[..|log|] == log
    ensures NewestRefresh(p, log + [e]) == if e.Granted? && e.got.refresh != "" then e.got.refresh
      else NewestRefresh(p, log)
    ensures LastGrant(p, log + [e]) == if e.Granted? then e.got else LastGrant(p, log)
  {
    assert (log + [e])[..|log|] == log;
  }

  lemma ReadSinceStays(log: seq<Event>, more: seq<Event>, i: nat, instant: int)
    requires ReadSince(log, i, instant)
    ensures ReadSince(log + more, i, instant)
  {
    var k :| i < k < |log| && log[k].Checked? && log[k].now >= instant;
    assert (log + more)[k] == log[k];
  }

  lemma GoodLogGrows(p: Pair, log: seq<Event>, e: Event)
    requires GoodLog(p, log)
    requires e.Sent? ==> e.token == NewestRefresh(p, log) && Expiries(log, true)
    requires e.Bearer? ==> e.token == LastGrant(p, log).access
    ensures GoodLog(p, log + [e])
  {
    var more := log + [e];
    assert forall j :: 0 <= j < |log| ==> more[j] == log[j] && more[..j] == log[..j];
    assert more[..|log|] == log;
    forall i, j | 0 <= i < j < |more| && more[i].Granted? && more[j].Sent?
      ensures ReadSince(more[..j], i, more[i].got.expiresAt)
    {
      assert j == |log| ==> log[i].Granted? && ReadSince(log, i, log[i].got.expiresAt);
    }
  }

  lemma ExpiriesGrow(log: seq<Event>, e: Event, all: bool)
    requires Expiries(log, all) && !e.Granted?
    ensures Expiries(log + [e], all)
  {
    var more := log + [e];
    forall i | 0 <= i < |more| && more[i].Granted? && (all || exists j :: i < j < |more| && more[j].Granted?)
      ensures ReadSince(more, i, more[i].got.expiresAt)
    {
      assert log[i] == more[i];
      ReadSinceStays(log, [e], i, log[i].got.expiresAt);
    }
  }

  lemma {:induction false} LastGrantStands(p: Pair, log: seq<Event>, i: nat)
    requires i < |log| && log[i].Granted? && forall j :: i < j < |log| ==> !log[j].Granted?
    ensures LastGrant(p, log) == log[i].got
  {
    if i < |log| - 1 { LastGrantStands(p, log[..|log| - 1], i); }
  }

  /** A clock reading past the last expiry closes the last grant. */
  lemma CheckCloses(p: Pair, log: seq<Event>, now: int)
    requires Expiries(log, false) && now >= LastGrant(p, log).expiresAt
    ensures Expiries(log + [Checked(now)], true)
  {
    var more := log + [Checked(now)];
    forall i | 0 <= i < |more| && more[i].Granted? ensures ReadSince(more, i, more[i].got.expiresAt) {
      assert log[i] == more[i];
      if exists j :: i < j < |log| && log[j].Granted? {
        ReadSinceStays(log, [Checked(now)], i, log[i].got.expiresAt);
      } else {
        LastGrantStands(p, log, i);
        assert more[|log|] == Checked(now);
      }
    }
  }

  lemma GrantOpens(log: seq<Event>, got: Pair)
    requires Expiries(log, true)
    ensures Expiries(log + [Granted(got)], false)
  {
    var more := log + [Granted(got)];
    forall i | 0 <= i < |more| && more[i].Granted? && exists j :: i < j < |more| && more[j].Granted?
      ensures ReadSince(more, i, more[i].got.expiresAt)
    {
      assert log[i] == more[i];
      ReadSinceStays(log, [Granted(got)], i, log[i].got.expiresAt);
    }
  }

  // ---- the durable copy ----

  /** The pair written last, and whether the last write failed. */
  function LastStored(p: Pair, log: seq<Event>): Pair {
    if log == [] then p
    else if log[|log| - 1].Stored? then log[|log| - 1].pair
    else LastStored(p, log[..|log| - 1])
  }

  function LastWriteFailed(log: seq<Event>): bool {
    if log == [] then false
    else if log[|log| - 1].Stored? then false
    else log[|log| - 1].StoreFailed? || LastWriteFailed(log[..|log| - 1])
  }

  lemma WriteSnoc(p: Pair, log: seq<Event>, e: Event)
    ensures LastStored(p, log + [e]) == if e.Stored? then e.pair else LastStored(p, log)
    ensures LastWriteFailed(log + [e]) == (!e.Stored? && (e.StoreFailed? || LastWriteFailed(log)))
  {
    assert (log + [e])[..|log|] == log;
  }

  // ---- the invariant ----

  ghost predicate MemoryIsLog(p: Pair, a: Account) {
    && a.mem.refresh == NewestRefresh(p, a.log)
    && a.mem.access == LastGrant(p, a.log).access
    && a.mem.expiresAt == LastGrant(p, a.log).expiresAt
    && a.stored == LastStored(p, a.log)
  }

  predicate Requesting(pc: Pc) { pc.Expired? || pc.Waiting? || pc.Answered? || pc.Parsed? }

  ghost predicate LogInv(p: Pair, s: State) {
    && MemoryIsLog(p, s.account)
    && GoodLog(p, s.account.log)
    && Expiries(s.account.log, s.lock.Some? && Requesting(PcOf(s, s.lock.value)))
    && (s.lock.None? || !PcOf(s, s.lock.value).Updated? ==>
         LastWriteFailed(s.account.log) || s.account.stored == s.account.mem)
  }

  /** The account's memory and durable copy after one more entry. */
  lemma MemoryGrows(p: Pair, a: Account, e: Event, mem: Pair, stored: Pair)
    requires MemoryIsLog(p, a)
    requires mem == if e.Granted? then Renewed(a.mem, e.got) else a.mem
    requires stored == if e.Stored? then e.pair else a.stored
    ensures MemoryIsLog(p, Account(mem, stored, a.log + [e]))
  {
    Snoc(p, a.log, e);
    WriteSnoc(p, a.log, e);
  }

  lemma CheckKeepsLog(p: Pair, s: State, step: Step)
    requires Inv(p, s) && LogInv(p, s) && Enabled(s, step) && step.CheckClock?
    ensures LogInv(p, Apply(s, step))
  {
    InsideOwns(p, s, step.t);
    var (a, e) := (s.account, Checked(step.now));
    MemoryGrows(p, a, e, a.mem, a.stored);
    GoodLogGrows(p, a.log, e);
    WriteSnoc(p, a.log, e);
    if Live(a, step.now) { ExpiriesGrow(a.log, e, false); } else { CheckCloses(p, a.log, step.now); }
  }

  lemma SendKeepsLog(p: Pair, s: State, step: Step)
    requires Inv(p, s) && LogInv(p, s) && Enabled(s, step) && step.SendRequest?
    ensures LogInv(p, Apply(s, step))
  {
    InsideOwns(p, s, step.t);
    var (a, e) := (s.account, Sent(s.account.mem.refresh));
    MemoryGrows(p, a, e, a.mem, a.stored);
    GoodLogGrows(p, a.log, e);
    WriteSnoc(p, a.log, e);
    ExpiriesGrow(a.log, e, true);
  }

  lemma UpdateKeepsLog(p: Pair, s: State, step: Step)
    requires Inv(p, s) && LogInv(p, s) && Enabled(s, step) && step.Update?
    ensures LogInv(p, Apply(s, step))
  {
    InsideOwns(p, s, step.t);
    var a := s.account;
    var got := ParseReply(PcOf(s, step.t).reply, PcOf(s, step.t).after).value;
    MemoryGrows(p, a, Granted(got), Renewed(a.mem, got), a.stored);
    GoodLogGrows(p, a.log, Granted(got));
    GrantOpens(a.log, got);
  }

  lemma PersistKeepsLog(p: Pair, s: State, step: Step)
    requires Inv(p, s) && LogInv(p, s) && Enabled(s, step)
    requires step.Persist? || (step.Drop? && PcOf(s, step.t).Updated?)
    ensures LogInv(p, Apply(s, step))
  {
    InsideOwns(p, s, step.t);
    var a := s.account;
    var e := if step.landed then Stored(a.mem) else StoreFailed;
    MemoryGrows(p, a, e, a.mem, if step.landed then a.mem else a.stored);
    GoodLogGrows(p, a.log, e);
    WriteSnoc(p, a.log, e);
    ExpiriesGrow(a.log, e, false);
  }

  lemma ReadKeepsLog(p: Pair, s: State, step: Step)
    requires Inv(p, s) && LogInv(p, s) && Enabled(s, step) && step.ReadToken?
    ensures LogInv(p, Apply(s, step))
  {
    var (a, e) := (s.account, Bearer(s.account.mem.access));
    MemoryGrows(p, a, e, a.mem, a.stored);
    GoodLogGrows(p, a.log, e);
    WriteSnoc(p, a.log, e);
    ExpiriesGrow(a.log, e, false);
  }

  lemma QuietKeepsLog(p: Pair, s: State, step: Step)
    requires Inv(p, s) && LogInv(p, s) && Enabled(s, step) && Apply(s, step).account == s.account
    ensures LogInv(p, Apply(s, step))
  {
    if Holds(PcOf(s, step.t)) { InsideOwns(p, s, step.t); }
  }

  lemma StepKeepsLogInv(p: Pair, s: State, step: Step)
    requires Inv(p, s) && LogInv(p, s) && Enabled(s, step)
    ensures LogInv(p, Apply(s, step))
  {
    match step
    case CheckClock(_, _) => CheckKeepsLog(p, s, step);
    case SendRequest(_) => SendKeepsLog(p, s, step);
    case Update(_) =>
      InsideOwns(p, s, step.t);
      UpdateKeepsLog(p, s, step);
    case Persist(_, _) => PersistKeepsLog(p, s, step);
    case ReadToken(_) => ReadKeepsLog(p, s, step);
    case Drop(_, _) => if PcOf(s, step.t).Updated? { PersistKeepsLog(p, s, step); } else { QuietKeepsLog(p, s, step); }
    case _ => QuietKeepsLog(p, s, step);
  }

  lemma {:induction false} ReachableLogInv(p: Pair, states: seq<State>, steps: seq<Step>, i: nat)
    requires Behavior(p, states, steps) && i < |states|
    ensures LogInv(p, states[i])
  {
    if i > 0 {
      ReachableLogInv(p, states, steps, i - 1);
      ReachableInv(p, states, steps, i - 1);
      StepKeepsLogInv(p, states[i - 1], steps[i - 1]);
    }
  }

  // ---- the theorems ----

  /** At most one caller is refreshing at any moment. */
  lemma OneRefreshAtATime(p: Pair, states: seq<State>, steps: seq<Step>, i: nat, t: nat, u: nat)
    requires Behavior(p, states, steps) && i < |states| && Holds(PcOf(states[i], t)) && Holds(PcOf(states[i], u))
    ensures t == u
  {
    ReachableInv(p, states, steps, i);
  }

  /** Every request carries the newest nonempty refresh token, every bearer token
      is the newest access token, and between a grant and the next request the
      clock was read past the grant's expiry. */
  lemma EveryRequestIsDue(p: Pair, states: seq<State>, steps: seq<Step>, i: nat)
    requires Behavior(p, states, steps) && i < |states|
    ensures GoodLog(p, states[i].account.log)
  {
    ReachableLogInv(p, states, steps, i);
  }

  /** One grant serves everybody: as long as every clock reading after it is
      before its expiry, nobody sends another request. */
  lemma OneGrantServesAll(p: Pair, states: seq<State>, steps: seq<Step>, i: nat, g: nat)
    requires Behavior(p, states, steps) && i < |states| && g < |states[i].account.log|
    requires states[i].account.log[g].Granted?
    requires var log := states[i].account.log;
      forall k :: g < k < |log| && log[k].Checked? ==> log[k].now < log[g].got.expiresAt
    ensures forall k :: g < k < |states[i].account.log| ==> !states[i].account.log[k].Sent?
  {
    ReachableLogInv(p, states, steps, i);
    var log := states[i].account.log;
    forall j | g < j < |log| ensures !log[j].Sent? {
      assert !ReadSince(log[..j], g, log[g].got.expiresAt);
    }
  }

  /** While nobody holds the lock the durable pair is the one in memory, unless the
      last write failed; and always it is the pair written last. */
  lemma StoredIsMemoryWhenFree(p: Pair, states: seq<State>, steps: seq<Step>, i: nat)
    requires Behavior(p, states, steps) && i < |states|
    ensures states[i].lock.None? && !LastWriteFailed(states[i].account.log) ==>
      states[i].account.stored == states[i].account.mem
    ensures states[i].account.stored == LastStored(p, states[i].account.log)
  {
    ReachableLogInv(p, states, steps, i);
  }

  /** Whenever the lock is free, the interleaved steps amount to the finished calls
      run whole, one after the other, in the order they released the lock. */
  lemma CallsAreSerial(p: Pair, states: seq<State>, steps: seq<Step>, i: nat)
    requires Behavior(p, states, steps) && i < |states| && states[i].lock.None?
    ensures Strip(states[i].account) == Fold(p, states[i].done)
  {
    ReachableInv(p, states, steps, i);
  }

  // ---- when memory is ahead of the durable copy ----

  /** A grant whose pair was not written yet. */
  ghost predicate Unstored(log: seq<Event>) {
    exists g :: 0 <= g < |log| && log[g].Granted? && forall k :: g < k < |log| ==> !log[k].Stored?
  }

  lemma UnstoredSnoc(log: seq<Event>, e: Event)
    ensures Unstored(log + [e]) <==> e.Granted? || (Unstored(log) && !e.Stored?)
  {
    var more := log + [e];
    assert more[|log|] == e && forall k :: 0 <= k < |log| ==> more[k] == log[k];
    if Unstored(log) && !e.Stored? {
      var g :| 0 <= g < |log| && log[g].Granted? && forall k :: g < k < |log| ==> !log[k].Stored?;
      assert more[g].Granted?;
    }
    if g :| 0 <= g < |more| && more[g].Granted? && forall k :: g < k < |more| ==> !more[k].Stored? {
      if g < |log| {
        assert log[g].Granted? && forall k :: g < k < |log| ==> !log[k].Stored?;
        assert !more[|log|].Stored?;
      }
    }
  }

  predicate Writing(s: State) { s.lock.Some? && PcOf(s, s.lock.value).Updated? }

  ghost predicate UnstoredFits(s: State) {
    Unstored(s.account.log) <==> LastWriteFailed(s.account.log) || Writing(s)
  }

  /** A step whose log entry is neither a grant nor a write, and that neither
      starts nor ends a write. */
  lemma OtherStepKeepsUnstored(p: Pair, s: State, step: Step, e: Event)
    requires UnstoredFits(s) && Enabled(s, step) && Apply(s, step).account.log == s.account.log + [e]
    requires !e.Granted? && !e.Stored? && !e.StoreFailed? && Writing(Apply(s, step)) == Writing(s)
    ensures UnstoredFits(Apply(s, step))
  {
    UnstoredSnoc(s.account.log, e);
    WriteSnoc(p, s.account.log, e);
  }

  lemma GrantKeepsUnstored(p: Pair, s: State, step: Step)
    requires Inv(p, s) && UnstoredFits(s) && Enabled(s, step) && step.Update?
    ensures UnstoredFits(Apply(s, step))
  {
    InsideOwns(p, s, step.t);
    var pc := PcOf(s, step.t);
    UnstoredSnoc(s.account.log, Granted(ParseReply(pc.reply, pc.after).value));
  }

  lemma WriteKeepsUnstored(p: Pair, s: State, step: Step)
    requires Inv(p, s) && UnstoredFits(s) && Enabled(s, step)
    requires step.Persist? || (step.Drop? && PcOf(s, step.t).Updated?)
    ensures UnstoredFits(Apply(s, step))
  {
    InsideOwns(p, s, step.t);
    var e := if step.landed then Stored(s.account.mem) else StoreFailed;
    UnstoredSnoc(s.account.log, e);
    WriteSnoc(p, s.account.log, e);
  }

  lemma QuietKeepsUnstored(p: Pair, s: State, step: Step)
    requires Inv(p, s) && UnstoredFits(s) && Enabled(s, step) && !step.Update?
    requires Apply(s, step).account == s.account
    ensures UnstoredFits(Apply(s, step))
  {
    if Holds(PcOf(s, step.t)) { InsideOwns(p, s, step.t); }
    assert Writing(Apply(s, step)) == Writing(s);
  }

  lemma StepKeepsUnstored(p: Pair, s: State, step: Step)
    requires Inv(p, s) && UnstoredFits(s) && Enabled(s, step)
    ensures UnstoredFits(Apply(s, step))
  {
    if Holds(PcOf(s, step.t)) { InsideOwns(p, s, step.t); }
    match step
    case CheckClock(_, now) => OtherStepKeepsUnstored(p, s, step, Checked(now));
    case SendRequest(_) => OtherStepKeepsUnstored(p, s, step, Sent(s.account.mem.refresh));
    case ReadToken(_) => OtherStepKeepsUnstored(p, s, step, Bearer(s.account.mem.access));
    case Update(_) => GrantKeepsUnstored(p, s, step);
    case Persist(_, _) => WriteKeepsUnstored(p, s, step);
    case Drop(_, _) =>
      if PcOf(s, step.t).Updated? { WriteKeepsUnstored(p, s, step); } else { QuietKeepsUnstored(p, s, step); }
    case _ => QuietKeepsUnstored(p, s, step);
  }

  lemma {:induction false} ReachableUnstored(p: Pair, states: seq<State>, steps: seq<Step>, i: nat)
    requires Behavior(p, states, steps) && i < |states|
    ensures UnstoredFits(states[i])
  {
    if i > 0 {
      ReachableUnstored(p, states, steps, i - 1);
      ReachableInv(p, states, steps, i - 1);
      StepKeepsUnstored(p, states[i - 1], steps[i - 1]);
    }
  }

  /** A granted pair is not written exactly while its caller is at the write, or
      when the last write failed; at all other moments, lock held or not, the
      durable pair is the one in memory. */
  lemma UnstoredExactly(p: Pair, states: seq<State>, steps: seq<Step>, i: nat)
    requires Behavior(p, states, steps) && i < |states|
    ensures Unstored(states[i].account.log) <==> LastWriteFailed(states[i].account.log) || Writing(states[i])
    ensures !Unstored(states[i].account.log) ==> states[i].account.stored == states[i].account.mem
  {
    ReachableLogInv(p, states, steps, i);
    ReachableUnstored(p, states, steps, i);
  }

  // ---- where the code is weaker than its comments ----

  const OLD: Pair := Pair("access", "refresh", 0)

  const REPLY: Reply := Accepted(Some(TokenResponse("new access", Some("new refresh"), 3600)))

  /** There is a moment with the new pair in memory and the old one stored. */
  lemma MemoryRunsAheadOfStore() returns (states: seq<State>, steps: seq<Step>, i: nat)
    ensures Behavior(OLD, states, steps) && i < |states|
    ensures states[i].account.mem.refresh == "new refresh" && states[i].account.stored == OLD
  {
    steps := [Acquire(0), CheckClock(0, 0), SendRequest(0), Receive(0, REPLY), ReadClock(0, 0), Update(0)];
    var s0 := Init(OLD);
    var s1 := Apply(s0, steps[0]);
    var s2 := Apply(s1, steps[1]);
    var s3 := Apply(s2, steps[2]);
    var s4 := Apply(s3, steps[3]);
    var s5 := Apply(s4, steps[4]);
    states := [s0, s1, s2, s3, s4, s5, Apply(s5, steps[5])];
    i := 6;
  }

  // ---- after a failed write ----

  /** What each entry of the log directly follows. */
  ghost predicate FitsAt(log: seq<Event>, j: nat)
    requires j < |log|
  {
    && (log[j].Sent? ==> j > 0 && log[j - 1].Checked?)
    && (log[j].Granted? ==> j > 0 && log[j - 1].Sent?)
    && (log[j].Stored? || log[j].StoreFailed? ==> j > 0 && log[j - 1].Granted?)
  }

  ghost predicate Contiguous(log: seq<Event>) { forall j :: 0 <= j < |log| ==> FitsAt(log, j) }

  ghost predicate EndsFor(log: seq<Event>, pc: Pc) {
    && (pc.Expired? ==> log != [] && log[|log| - 1].Checked?)
    && (pc.Waiting? || pc.Answered? || pc.Parsed? ==> log != [] && log[|log| - 1].Sent?)
    && (pc.Updated? ==> log != [] && log[|log| - 1].Granted?)
  }

  ghost predicate LogFits(s: State) {
    Contiguous(s.account.log) && (s.lock.Some? ==> EndsFor(s.account.log, PcOf(s, s.lock.value)))
  }

  lemma ContiguousGrows(log: seq<Event>, e: Event)
    requires Contiguous(log)
    requires e.Sent? ==> log != [] && log[|log| - 1].Checked?
    requires e.Granted? ==> log != [] && log[|log| - 1].Sent?
    requires e.Stored? || e.StoreFailed? ==> log != [] && log[|log| - 1].Granted?
    ensures Contiguous(log + [e])
  {
    var more := log + [e];
    forall j | 0 <= j < |more| ensures FitsAt(more, j) {
      if j < |log| { assert FitsAt(log, j) && more[j] == log[j] && (j > 0 ==> more[j - 1] == log[j - 1]); }
    }
  }

  lemma InsideFits(p: Pair, s: State, step: Step)
    requires Inv(p, s) && LogFits(s) && Enabled(s, step) && Holds(PcOf(s, step.t))
    ensures s.lock == Some(step.t) && EndsFor(s.account.log, PcOf(s, step.t))
  {
    InsideOwns(p, s, step.t);
  }

  lemma CheckKeepsFit(p: Pair, s: State, step: Step)
    requires Inv(p, s) && LogFits(s) && Enabled(s, step) && (step.CheckClock? || step.SendRequest? || step.Update?)
    ensures LogFits(Apply(s, step))
  {
    InsideFits(p, s, step);
    if step.CheckClock? {
      ContiguousGrows(s.account.log, Checked(step.now));
    } else if step.SendRequest? {
      ContiguousGrows(s.account.log, Sent(s.account.mem.refresh));
    } else {
      InsideOwns(p, s, step.t);
      ContiguousGrows(s.account.log, Granted(ParseReply(PcOf(s, step.t).reply, PcOf(s, step.t).after).value));
    }
  }

  lemma ReleaseKeepsFit(p: Pair, s: State, step: Step)
    requires Inv(p, s) && LogFits(s) && Enabled(s, step) && (step.Persist? || (step.Drop? && PcOf(s, step.t).Updated?))
    ensures LogFits(Apply(s, step))
  {
    InsideFits(p, s, step);
    ContiguousGrows(s.account.log, Stored(s.account.mem));
    ContiguousGrows(s.account.log, StoreFailed);
  }

  lemma QuietKeepsFit(p: Pair, s: State, step: Step)
    requires Inv(p, s) && LogFits(s) && Enabled(s, step) && Apply(s, step).account == s.account
    ensures LogFits(Apply(s, step))
  {
    if Holds(PcOf(s, step.t)) {
      InsideFits(p, s, step);
    } else if s.lock.Some? {
      assert s.lock.value == step.t ==> Holds(PcOf(s, step.t));
      assert PcOf(Apply(s, step), s.lock.value) == PcOf(s, s.lock.value);
    }
  }

  lemma StepKeepsFit(p: Pair, s: State, step: Step)
    requires Inv(p, s) && LogFits(s) && Enabled(s, step)
    ensures LogFits(Apply(s, step))
  {
    match step
    case CheckClock(_, _) => CheckKeepsFit(p, s, step);
    case SendRequest(_) => CheckKeepsFit(p, s, step);
    case Update(_) => InsideOwns(p, s, step.t); CheckKeepsFit(p, s, step);
    case Persist(_, _) => ReleaseKeepsFit(p, s, step);
    case ReadToken(_) => ContiguousGrows(s.account.log, Bearer(s.account.mem.access));
    case Drop(_, _) => if PcOf(s, step.t).Updated? { ReleaseKeepsFit(p, s, step); } else { QuietKeepsFit(p, s, step); }
    case _ => QuietKeepsFit(p, s, step);
  }

  lemma {:induction false} ReachableFit(p: Pair, states: seq<State>, steps: seq<Step>, i: nat)
    requires Behavior(p, states, steps) && i < |states|
    ensures LogFits(states[i])
  {
    if i > 0 {
      ReachableFit(p, states, steps, i - 1);
      ReachableInv(p, states, steps, i - 1);
      StepKeepsFit(p, states[i - 1], steps[i - 1]);
    }
  }

  lemma {:induction false} QuietSuffix(p: Pair, log: seq<Event>, f: nat)
    requires f <= |log| && forall k :: f <= k < |log| ==> !log[k].Granted? && !log[k].Stored?
    ensures LastStored(p, log) == LastStored(p, log[..f]) && LastGrant(p, log) == LastGrant(p, log[..f])
    decreases |log|
  {
    if f < |log| {
      QuietSuffix(p, log[..|log| - 1], f);
      assert log[..|log| - 1][..f] == log[..f];
    } else {
      assert log[..f] == log;
    }
  }

  /** Behind a failed write with no clock reading past the grant's expiry, nothing
      is sent, granted or written. */
  lemma NothingAfterFailedWrite(p: Pair, log: seq<Event>, f: nat)
    requires GoodLog(p, log) && Contiguous(log) && 0 < f < |log| && log[f].StoreFailed? && log[f - 1].Granted?
    requires forall k :: f < k < |log| && log[k].Checked? ==> log[k].now < log[f - 1].got.expiresAt
    ensures forall k :: f < k < |log| ==> !log[k].Sent? && !log[k].Granted? && !log[k].Stored? && !log[k].StoreFailed?
  {
    forall k | f < k < |log| ensures !log[k].Sent? { assert !ReadSince(log[..k], f - 1, log[f - 1].got.expiresAt); }
    forall k | f < k < |log| ensures !log[k].Granted? { assert FitsAt(log, k) && !log[k - 1].Sent?; }
    forall k | f < k < |log| ensures !log[k].Stored? && !log[k].StoreFailed? {
      assert FitsAt(log, k) && !log[k - 1].Granted?;
    }
  }

  /** A failed write is not made up for: in every schedule, until a clock reading
      reaches the new expiry, the new pair stays in memory and the pair written
      before stays stored, nobody sends or writes, and every call that reads the
      clock before the expiry succeeds. */
  lemma FailedWriteStays(p: Pair, states: seq<State>, steps: seq<Step>, i: nat, f: nat)
    requires Behavior(p, states, steps) && i < |states| && f < |states[i].account.log|
    requires states[i].account.log[f].StoreFailed?
    requires var log := states[i].account.log;
      forall k :: f < k < |log| && log[k].Checked? ==> log[k].now < LastGrant(p, log[..f]).expiresAt
    ensures var (a, grant) := (states[i].account, LastGrant(p, states[i].account.log[..f]));
      && a.stored == LastStored(p, a.log[..f])
      && a.mem.access == grant.access && a.mem.expiresAt == grant.expiresAt
      && (forall k :: f < k < |a.log| ==> !a.log[k].Sent? && !a.log[k].Stored? && !a.log[k].StoreFailed?)
      && (forall t: nat, now :: Enabled(states[i], CheckClock(t, now)) && now < grant.expiresAt ==>
            PcOf(Apply(states[i], CheckClock(t, now)), t).Ready?)
  {
    var log := states[i].account.log;
    ReachableLogInv(p, states, steps, i);
    ReachableFit(p, states, steps, i);
    assert FitsAt(log, f);
    assert f > 0 && log[f - 1].Granted? && log[..f][f - 1] == log[f - 1];
    NothingAfterFailedWrite(p, log, f);
    QuietSuffix(p, log, f);
  }
}
