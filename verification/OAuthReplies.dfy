/** From a token reply to what callers may do: which steps a grant rests on, what
    it grants, and how long it serves everybody. */
module OAuthReplies {
  import opened Basics
  import opened OAuth
  import opened OAuthProtocol
  import opened OAuthTheorems

  // ---- where a caller stands, and why ----

  lemma OthersStand(s: State, step: Step, t: nat)
    requires Enabled(s, step) && step.t != t
    ensures PcOf(Apply(s, step), t) == PcOf(s, t)
  {
  }

  lemma BecomesAnswered(s: State, step: Step, t: nat)
    requires Enabled(s, step) && step.t == t && PcOf(Apply(s, step), t).Answered?
    ensures PcOf(s, t).Waiting? && step == Receive(t, PcOf(Apply(s, step), t).reply)
    ensures PcOf(Apply(s, step), t).reply.Accepted? && PcOf(Apply(s, step), t).reply.body.Some?
  {
  }

  lemma BecomesParsed(s: State, step: Step, t: nat)
    requires Enabled(s, step) && step.t == t && PcOf(Apply(s, step), t).Parsed?
    requires PcOf(s, t).Parsed? ==> ParseReply(PcOf(s, t).reply, PcOf(s, t).after).Ok?
    ensures PcOf(s, t).Answered? && step == ReadClock(t, PcOf(Apply(s, step), t).after)
    ensures PcOf(s, t).reply == PcOf(Apply(s, step), t).reply
  {
  }

  /** No step of the caller between two moments. */
  ghost predicate Still(steps: seq<Step>, a: nat, b: nat, t: nat) {
    forall k :: a < k < b && k < |steps| ==> steps[k].t != t
  }

  lemma {:induction false} AnsweredFrom(p: Pair, states: seq<State>, steps: seq<Step>, i: nat, t: nat) returns (a: nat)
    requires Behavior(p, states, steps) && i < |states| && PcOf(states[i], t).Answered?
    ensures a < i && steps[a] == Receive(t, PcOf(states[i], t).reply) && Still(steps, a, i, t)
    ensures PcOf(states[i], t).reply.Accepted? && PcOf(states[i], t).reply.body.Some?
  {
    assert states[0] == Init(p);
    var (s, step) := (states[i - 1], steps[i - 1]);
    if step.t == t {
      BecomesAnswered(s, step, t);
      a := i - 1;
    } else {
      OthersStand(s, step, t);
      a := AnsweredFrom(p, states, steps, i - 1, t);
    }
  }

  lemma {:induction false} ParsedFrom(p: Pair, states: seq<State>, steps: seq<Step>, i: nat, t: nat) returns (b: nat)
    requires Behavior(p, states, steps) && i < |states| && PcOf(states[i], t).Parsed?
    ensures b < i && steps[b] == ReadClock(t, PcOf(states[i], t).after) && Still(steps, b, i, t)
    ensures PcOf(states[b], t).Answered? && PcOf(states[b], t).reply == PcOf(states[i], t).reply
  {
    assert states[0] == Init(p);
    var (s, step) := (states[i - 1], steps[i - 1]);
    if step.t == t {
      if PcOf(s, t).Parsed? {
        ReachableInv(p, states, steps, i - 1);
        InsideOwns(p, s, t);
      }
      BecomesParsed(s, step, t);
      b := i - 1;
    } else {
      OthersStand(s, step, t);
      b := ParsedFrom(p, states, steps, i - 1, t);
    }
  }

  lemma UpdateGrants(s: State, t: nat, r: TokenResponse)
    requires Enabled(s, Update(t)) && PcOf(s, t).reply == Accepted(Some(r))
    ensures var (a, b, after) := (s.account, Apply(s, Update(t)).account, PcOf(s, t).after);
      && b.log == a.log + [Granted(Pair(r.access, if GivenRefresh(r) then r.refresh.value else "",
                                        after + r.expiresIn * 1_000_000_000))]
      && b.mem == Pair(r.access, if GivenRefresh(r) then r.refresh.value else a.mem.refresh,
                       after + r.expiresIn * 1_000_000_000)
      && b.stored == a.stored
  {
  }

  /** Every grant rests on a reply its caller received and a clock it then read. It
      puts into memory the access token of that reply, its refresh token if it gave
      one, and an expiry that many seconds after that reading. */
  lemma GrantComesFromReply(p: Pair, states: seq<State>, steps: seq<Step>, u: nat, t: nat)
    returns (a: nat, b: nat, r: TokenResponse, after: int)
    requires Behavior(p, states, steps) && u < |steps| && steps[u] == Update(t)
    ensures a < b < u && steps[a] == Receive(t, Accepted(Some(r))) && steps[b] == ReadClock(t, after)
    ensures Still(steps, a, b, t) && Still(steps, b, u, t)
    ensures var (was, now) := (states[u].account, states[u + 1].account);
      && now.log == was.log + [Granted(Pair(r.access, if GivenRefresh(r) then r.refresh.value else "",
                                            after + r.expiresIn * 1_000_000_000))]
      && now.mem == Pair(r.access, if GivenRefresh(r) then r.refresh.value else was.mem.refresh,
                         after + r.expiresIn * 1_000_000_000)
      && now.stored == was.stored
  {
    b := ParsedFrom(p, states, steps, u, t);
    a := AnsweredFrom(p, states, steps, b, t);
    r := PcOf(states[u], t).reply.body.value;
    after := PcOf(states[u], t).after;
    UpdateGrants(states[u], t, r);
  }

  // ---- log entries and the steps that made them ----

  lemma StepLogs(s: State, step: Step)
    requires Enabled(s, step)
    ensures var (was, now) := (s.account.log, Apply(s, step).account.log);
      && was <= now && |now| <= |was| + 1
      && (|now| > |was| && now[|was|].Checked? ==> step == CheckClock(step.t, now[|was|].now))
      && (|now| > |was| && now[|was|].Granted? ==> step.Update?)
      && (step.SendRequest? ==> |now| > |was| && now[|was|].Sent?)
  {
  }

  lemma {:induction false} LogGrows(p: Pair, states: seq<State>, steps: seq<Step>, i: nat, j: nat)
    requires Behavior(p, states, steps) && i <= j < |states|
    ensures states[i].account.log <= states[j].account.log
    decreases j
  {
    if i < j {
      LogGrows(p, states, steps, i, j - 1);
      StepLogs(states[j - 1], steps[j - 1]);
    }
  }

  lemma {:induction false} EntrySource(p: Pair, states: seq<State>, steps: seq<Step>, u: nat, i: nat, n: nat)
    returns (k: nat)
    requires Behavior(p, states, steps) && u <= i < |states|
    requires |states[u].account.log| <= n < |states[i].account.log|
    ensures u <= k < i && |states[k].account.log| == n && n < |states[k + 1].account.log|
    ensures states[k + 1].account.log[n] == states[i].account.log[n]
    decreases i
  {
    StepLogs(states[i - 1], steps[i - 1]);
    if n < |states[i - 1].account.log| {
      k := EntrySource(p, states, steps, u, i - 1, n);
    } else {
      k := i - 1;
    }
  }

  /** The reading that a clock check in the log comes from. */
  lemma CheckSource(p: Pair, states: seq<State>, steps: seq<Step>, u: nat, i: nat, n: nat) returns (k: nat)
    requires Behavior(p, states, steps) && u <= i < |states|
    requires |states[u].account.log| <= n < |states[i].account.log| && states[i].account.log[n].Checked?
    ensures u <= k < i && steps[k].CheckClock? && steps[k].now == states[i].account.log[n].now
  {
    k := EntrySource(p, states, steps, u, i, n);
    StepLogs(states[k], steps[k]);
  }

  /** Every pair the log calls granted is what one reply gave, read at one clock. */
  lemma GrantedEntryIsReply(p: Pair, states: seq<State>, steps: seq<Step>, i: nat, n: nat)
    returns (t: nat, a: nat, b: nat, r: TokenResponse, after: int)
    requires Behavior(p, states, steps) && i < |states|
    requires n < |states[i].account.log| && states[i].account.log[n].Granted?
    ensures a < b < i && steps[a] == Receive(t, Accepted(Some(r))) && steps[b] == ReadClock(t, after)
    ensures Still(steps, a, b, t)
    ensures states[i].account.log[n].got ==
      Pair(r.access, if r.refresh.Some? then r.refresh.value else "", after + r.expiresIn * 1_000_000_000)
  {
    var u := EntrySource(p, states, steps, 0, i, n);
    StepLogs(states[u], steps[u]);
    t := steps[u].t;
    a, b, r, after := GrantComesFromReply(p, states, steps, u, t);
  }

  /** One reply serves everybody: from the grant on, as long as every caller reads the
      clock before the reading of that reply plus its seconds, nobody sends. */
  lemma OneReplyServesAll(p: Pair, states: seq<State>, steps: seq<Step>, u: nat, i: nat, t: nat)
    returns (a: nat, b: nat, r: TokenResponse, after: int)
    requires Behavior(p, states, steps) && u < i < |states| && steps[u] == Update(t)
    ensures a < b < u && steps[a] == Receive(t, Accepted(Some(r))) && steps[b] == ReadClock(t, after)
    ensures (forall k :: u < k < i && steps[k].CheckClock? ==> steps[k].now < after + r.expiresIn * 1_000_000_000) ==>
      forall k :: u < k < i ==> !steps[k].SendRequest?
  {
    a, b, r, after := GrantComesFromReply(p, states, steps, u, t);
    if forall k :: u < k < i && steps[k].CheckClock? ==> steps[k].now < after + r.expiresIn * 1_000_000_000 {
      forall k | u < k < i ensures !steps[k].SendRequest? {
        if steps[k].SendRequest? {
          SendNeedsLateCheck(p, states, steps, u, k, after + r.expiresIn * 1_000_000_000);
        }
      }
    }
  }

  /** Behind a grant a request needs a clock reading at its expiry or later. */
  lemma SendNeedsLateCheck(p: Pair, states: seq<State>, steps: seq<Step>, u: nat, k: nat, expiry: int)
    requires Behavior(p, states, steps) && u < k < |steps| && steps[u].Update? && steps[k].SendRequest?
    requires |states[u + 1].account.log| == |states[u].account.log| + 1
    requires states[u + 1].account.log[|states[u].account.log|].Granted?
    requires states[u + 1].account.log[|states[u].account.log|].got.expiresAt == expiry
    ensures exists c :: u < c < k && steps[c].CheckClock? && steps[c].now >= expiry
  {
    var (g, log) := (|states[u].account.log|, states[k + 1].account.log);
    LogGrows(p, states, steps, u + 1, k);
    LogGrows(p, states, steps, u + 1, k + 1);
    StepLogs(states[k], steps[k]);
    ReachableLogInv(p, states, steps, k + 1);
    var m := |states[k].account.log|;
    assert g < m && log[g].Granted? && log[m].Sent?;
    assert ReadSince(log[..m], g, expiry);
    var n :| g < n < m && log[..m][n].Checked? && log[..m][n].now >= expiry;
    LogGrows(p, states, steps, k, k + 1);
    assert states[k].account.log[n] == log[n];
    var c := CheckSource(p, states, steps, u + 1, k, n);
  }
}
