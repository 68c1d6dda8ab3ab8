/** Any number of callers share one token behind one lock. Every clock reading,
    request, reply, memory update and write is its own step; a caller may be
    dropped while it waits for the network or the write. */
module OAuthProtocol {
  import opened Basics
  import opened OAuth

  datatype Pc =
    | Idle
    | Locked
    | Expired(now: int)
    | Waiting(now: int)
    | Answered(now: int, reply: Reply)
    | Parsed(now: int, reply: Reply, after: int)
    | Updated(now: int, reply: Reply, after: int)
    | Ready

  predicate Holds(pc: Pc) { !pc.Idle? && !pc.Ready? }

  /** `done` lists the calls that released the lock, in that order. */
  datatype State = State(lock: Option<nat>, pcs: map<nat, Pc>, account: Account, done: seq<Section>)

  function PcOf(s: State, t: nat): Pc { if t in s.pcs then s.pcs[t] else Idle }

  datatype Step =
    | Acquire(t: nat)
    | CheckClock(t: nat, now: int)
    | SendRequest(t: nat)
    | Receive(t: nat, reply: Reply)
    | ReadClock(t: nat, after: int)
    | Update(t: nat)
    | Persist(t: nat, landed: bool)
    | ReadToken(t: nat)
    | Drop(t: nat, landed: bool)

  function At(s: State, t: nat, pc: Pc): State { s.(pcs := s.pcs[t := pc]) }

  function Release(s: State, t: nat, pc: Pc, section: Section): State {
    s.(pcs := s.pcs[t := pc], lock := None, done := s.done + [section])
  }

  predicate Enabled(s: State, step: Step) {
    var pc := PcOf(s, step.t);
    match step
    case Acquire(_) => pc.Idle? && s.lock.None?
    case CheckClock(_, _) => pc.Locked?
    case SendRequest(_) => pc.Expired?
    case Receive(_, _) => pc.Waiting?
    case ReadClock(_, _) => pc.Answered?
    case Update(_) => pc.Parsed?
    case Persist(_, _) => pc.Updated?
    case ReadToken(_) => pc.Ready? && s.lock.None?
    case Drop(_, _) => pc.Waiting? || pc.Updated? || pc.Ready?
  }

  function Apply(s: State, step: Step): State
    requires Enabled(s, step)
  {
    var t := step.t;
    var pc := PcOf(s, t);
    match step
    case Acquire(_) => At(s, t, Locked).(lock := Some(t))
    case CheckClock(_, now) =>
      var next := s.(account := AfterCheck(s.account, now));
      if Live(s.account, now) then Release(next, t, Ready, Section(now, Unreachable, now, false))
        else At(next, t, Expired(now))
    case SendRequest(_) => At(s.(account := AfterSend(s.account)), t, Waiting(pc.now))
    case Receive(_, reply) =>
      if ParseReply(reply, pc.now).Err? then Release(s, t, Idle, Section(pc.now, reply, pc.now, false))
      else At(s, t, Answered(pc.now, reply))
    case ReadClock(_, after) => At(s, t, Parsed(pc.now, pc.reply, after))
    case Update(_) =>
      var got := ParseReply(pc.reply, pc.after);
      if got.Ok? then At(s.(account := AfterGrant(s.account, got.value)), t, Updated(pc.now, pc.reply, pc.after)) else s
    case Persist(_, landed) =>
      Release(s.(account := AfterStore(s.account, landed)), t, if landed then Ready else Idle,
              Section(pc.now, pc.reply, pc.after, landed))
    case ReadToken(_) => At(s.(account := s.account.(log := s.account.log + [Bearer(s.account.mem.access)])), t, Idle)
    case Drop(_, landed) =>
      if pc.Ready? then At(s, t, Idle)
      else if pc.Waiting? then Release(s, t, Idle, Section(pc.now, Unreachable, pc.now, false))
      else Release(s.(account := AfterStore(s.account, landed)), t, Idle, Section(pc.now, pc.reply, pc.after, landed))
  }

  function Init(p: Pair): State { State(None, map[], Account(p, p, []), []) }

  /** `states` is a run of the machine from the pair `p`, step by step. */
  ghost predicate Behavior(p: Pair, states: seq<State>, steps: seq<Step>) {
    && |states| == |steps| + 1
    && states[0] == Init(p)
    && forall i :: 0 <= i < |steps| ==> Enabled(states[i], steps[i]) && states[i + 1] == Apply(states[i], steps[i])
  }

  // ---- what the log tells ----

  /** The newest refresh token received that was not empty. */
  function NewestRefresh(p: Pair, log: seq<Event>): string {
    if log == [] then p.refresh
    else if log[|log| - 1].Granted? && log[|log| - 1].got.refresh != "" then log[|log| - 1].got.refresh
    else NewestRefresh(p, log[..|log| - 1])
  }

  function LastGrant(p: Pair, log: seq<Event>): Pair {
    if log == [] then p
    else if log[|log| - 1].Granted? then log[|log| - 1].got
    else LastGrant(p, log[..|log| - 1])
  }

  /** A clock reading after position `i` of the log reached the instant. */
  ghost predicate ReadSince(log: seq<Event>, i: nat, instant: int) {
    exists k :: i < k < |log| && log[k].Checked? && log[k].now >= instant
  }

  ghost predicate GoodLog(p: Pair, log: seq<Event>) {
    && (forall j :: 0 <= j < |log| && log[j].Sent? ==> log[j].token == NewestRefresh(p, log[..j]))
    && (forall j :: 0 <= j < |log| && log[j].Bearer? ==> log[j].token == LastGrant(p, log[..j]).access)
    && (forall i, j :: 0 <= i < j < |log| && log[i].Granted? && log[j].Sent? ==>
         ReadSince(log[..j], i, log[i].got.expiresAt))
  }

  /** Every grant of the log, but possibly the last, was followed by a clock
      reading past its expiry; and also the last one, if `all`. */
  ghost predicate Expiries(log: seq<Event>, all: bool) {
    forall i :: 0 <= i < |log| && log[i].Granted? && (all || exists j :: i < j < |log| && log[j].Granted?) ==>
      ReadSince(log, i, log[i].got.expiresAt)
  }

  // ---- the invariant ----

  function Fold(p: Pair, done: seq<Section>): Account {
    if done == [] then Account(p, p, []) else RunSection(Fold(p, done[..|done| - 1]), done[|done| - 1])
  }

  /** The account without the reads of the token, which change nothing. */
  function WithoutBearers(log: seq<Event>): seq<Event> {
    if log == [] then []
    else WithoutBearers(log[..|log| - 1]) + if log[|log| - 1].Bearer? then [] else [log[|log| - 1]]
  }

  function Strip(a: Account): Account { a.(log := WithoutBearers(a.log)) }

  /** The account a call has made of `a` by the time it stands at `pc`. */
  function Midway(a: Account, pc: Pc): Account {
    match pc
    case Idle => a
    case Ready => a
    case Locked => a
    case Expired(now) => AfterCheck(a, now)
    case Waiting(now) => AfterSend(AfterCheck(a, now))
    case Answered(now, _) => AfterSend(AfterCheck(a, now))
    case Parsed(now, _, _) => AfterSend(AfterCheck(a, now))
    case Updated(now, reply, after) =>
      var got := ParseReply(reply, after);
      if got.Ok? then AfterGrant(AfterSend(AfterCheck(a, now)), got.value) else a
  }

  predicate PcOk(a: Account, pc: Pc) {
    (pc.Expired? || pc.Waiting? || pc.Answered? || pc.Parsed? || pc.Updated? ==> !Live(a, pc.now))
    && (pc.Answered? || pc.Parsed? || pc.Updated? ==> pc.reply.Accepted? && pc.reply.body.Some?)
  }

  /** Only the owner of the lock is inside; what it sees is what the finished
      calls left, one after the other, and what it did itself. */
  ghost predicate Inv(p: Pair, s: State) {
    && (forall t: nat :: Holds(PcOf(s, t)) <==> s.lock == Some(t))
    && (s.lock.None? ==> Strip(s.account) == Fold(p, s.done))
    && (s.lock.Some? ==>
          var pc := PcOf(s, s.lock.value);
          PcOk(Fold(p, s.done), pc) && Strip(s.account) == Midway(Fold(p, s.done), pc))
  }

  lemma StripSnoc(a: Account, e: Event)
    ensures Strip(a.(log := a.log + [e])) == if e.Bearer? then Strip(a) else Strip(a).(log := Strip(a).log + [e])
  {
    assert (a.log + [e])[..|a.log|] == a.log;
  }

  lemma FoldSnoc(p: Pair, done: seq<Section>, section: Section)
    ensures Fold(p, done + [section]) == RunSection(Fold(p, done), section)
  {
    assert (done + [section])[..|done|] == done;
  }

  lemma StepKeepsLock(p: Pair, s: State, step: Step)
    requires Inv(p, s) && Enabled(s, step)
    ensures forall t: nat :: Holds(PcOf(Apply(s, step), t)) <==> Apply(s, step).lock == Some(t)
  {
    var next := Apply(s, step);
    forall t: nat ensures Holds(PcOf(next, t)) <==> next.lock == Some(t) {
      assert Holds(PcOf(s, t)) <==> s.lock == Some(t);
      assert Holds(PcOf(s, step.t)) <==> s.lock == Some(step.t);
    }
  }

  lemma InsideOwns(p: Pair, s: State, t: nat)
    requires Inv(p, s) && Holds(PcOf(s, t))
    ensures s.lock == Some(t) && PcOk(Fold(p, s.done), PcOf(s, t))
    ensures Strip(s.account) == Midway(Fold(p, s.done), PcOf(s, t))
  {
  }

  ghost predicate AccountOk(p: Pair, s: State) {
    if s.lock.None? then Strip(s.account) == Fold(p, s.done)
    else
      var pc := PcOf(s, s.lock.value);
      PcOk(Fold(p, s.done), pc) && Strip(s.account) == Midway(Fold(p, s.done), pc)
  }

  lemma AcquireKeeps(p: Pair, s: State, step: Step)
    requires Inv(p, s) && Enabled(s, step) && step.Acquire?
    ensures AccountOk(p, Apply(s, step))
  {
  }

  lemma ReadKeeps(p: Pair, s: State, step: Step)
    requires Inv(p, s) && Enabled(s, step) && step.ReadToken?
    ensures AccountOk(p, Apply(s, step))
  {
    StripSnoc(s.account, Bearer(s.account.mem.access));
  }

  lemma LeaveKeeps(p: Pair, s: State, step: Step)
    requires Inv(p, s) && Enabled(s, step) && step.Drop? && PcOf(s, step.t).Ready?
    ensures AccountOk(p, Apply(s, step))
  {
    assert s.lock.Some? ==> s.lock.value != step.t && PcOf(Apply(s, step), s.lock.value) == PcOf(s, s.lock.value);
  }

  lemma CheckKeeps(p: Pair, s: State, step: Step)
    requires Inv(p, s) && Enabled(s, step) && step.CheckClock?
    ensures AccountOk(p, Apply(s, step))
  {
    InsideOwns(p, s, step.t);
    StripSnoc(s.account, Checked(step.now));
    FoldSnoc(p, s.done, Section(step.now, Unreachable, step.now, false));
  }

  lemma RequestKeeps(p: Pair, s: State, step: Step)
    requires Inv(p, s) && Enabled(s, step) && step.SendRequest?
    ensures AccountOk(p, Apply(s, step))
  {
    InsideOwns(p, s, step.t);
    StripSnoc(s.account, Sent(s.account.mem.refresh));
  }

  lemma ClockKeeps(p: Pair, s: State, step: Step)
    requires Inv(p, s) && Enabled(s, step) && step.ReadClock?
    ensures AccountOk(p, Apply(s, step))
  {
    InsideOwns(p, s, step.t);
  }

  lemma ReceiveKeeps(p: Pair, s: State, step: Step)
    requires Inv(p, s) && Enabled(s, step) && step.Receive?
    ensures AccountOk(p, Apply(s, step))
  {
    InsideOwns(p, s, step.t);
    var now := PcOf(s, step.t).now;
    FoldSnoc(p, s.done, Section(now, step.reply, now, false));
  }

  lemma GrantStrips(a: Account, got: Pair)
    ensures Strip(AfterGrant(a, got)) == AfterGrant(Strip(a), got)
  {
    StripSnoc(a.(mem := Renewed(a.mem, got)), Granted(got));
  }

  lemma MidwayUpdates(a: Account, before: Account, pc: Pc)
    requires pc.Parsed? && PcOk(before, pc) && Strip(a) == Midway(before, pc)
    ensures ParseReply(pc.reply, pc.after).Ok?
    ensures var updated := Updated(pc.now, pc.reply, pc.after);
      PcOk(before, updated) && Strip(AfterGrant(a, ParseReply(pc.reply, pc.after).value)) == Midway(before, updated)
  {
    GrantStrips(a, ParseReply(pc.reply, pc.after).value);
  }

  lemma UpdateKeeps(p: Pair, s: State, step: Step)
    requires Inv(p, s) && Enabled(s, step) && step.Update?
    ensures AccountOk(p, Apply(s, step))
  {
    InsideOwns(p, s, step.t);
    MidwayUpdates(s.account, Fold(p, s.done), PcOf(s, step.t));
  }

  lemma PersistKeeps(p: Pair, s: State, step: Step)
    requires Inv(p, s) && Enabled(s, step) && (step.Persist? || (step.Drop? && PcOf(s, step.t).Updated?))
    ensures AccountOk(p, Apply(s, step))
  {
    InsideOwns(p, s, step.t);
    var pc := PcOf(s, step.t);
    StripSnoc(s.account, Stored(s.account.mem));
    StripSnoc(s.account, StoreFailed);
    FoldSnoc(p, s.done, Section(pc.now, pc.reply, pc.after, step.landed));
  }

  lemma LostReplyKeeps(p: Pair, s: State, step: Step)
    requires Inv(p, s) && Enabled(s, step) && step.Drop? && PcOf(s, step.t).Waiting?
    ensures AccountOk(p, Apply(s, step))
  {
    InsideOwns(p, s, step.t);
    var now := PcOf(s, step.t).now;
    FoldSnoc(p, s.done, Section(now, Unreachable, now, false));
  }

  lemma StepKeepsInv(p: Pair, s: State, step: Step)
    requires Inv(p, s) && Enabled(s, step)
    ensures Inv(p, Apply(s, step))
  {
    StepKeepsLock(p, s, step);
    match step
    case Acquire(_) => AcquireKeeps(p, s, step);
    case CheckClock(_, _) => CheckKeeps(p, s, step);
    case SendRequest(_) => RequestKeeps(p, s, step);
    case Receive(_, _) => ReceiveKeeps(p, s, step);
    case ReadClock(_, _) => ClockKeeps(p, s, step);
    case Update(_) => UpdateKeeps(p, s, step);
    case Persist(_, _) => PersistKeeps(p, s, step);
    case ReadToken(_) => ReadKeeps(p, s, step);
    case Drop(_, _) =>
      if PcOf(s, step.t).Waiting? { LostReplyKeeps(p, s, step); }
      else if PcOf(s, step.t).Updated? { PersistKeeps(p, s, step); }
      else { LeaveKeeps(p, s, step); }
  }

  lemma {:induction false} ReachableInv(p: Pair, states: seq<State>, steps: seq<Step>, i: nat)
    requires Behavior(p, states, steps) && i < |states|
    ensures Inv(p, states[i])
  {
    if i > 0 {
      ReachableInv(p, states, steps, i - 1);
      StepKeepsInv(p, states[i - 1], steps[i - 1]);
    }
  }
}
