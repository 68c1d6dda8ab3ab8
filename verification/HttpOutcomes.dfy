/** What a retried call ends in and how long it waits, told by statuses, failures
    and seconds. */
module HttpOutcomes {
  import opened Basics
  import opened HttpRetry

  /** Statuses and transport failures that a later attempt may cure. */
  predicate WorthRetrying(r: Reply) {
    match r
    case Response(status, _) => status in {429, 500, 502, 503, 504}
    case Failure(timeout, connect, request, _) => timeout || connect || request
  }

  /** Nothing stops the round before its reply is in. */
  predicate Undisturbed(turn: Turn) { !turn.cancelBefore && turn.cloneable && !turn.cancelInFlight }

  /** A call goes on after a round exactly when its reply is worth a retry, an attempt is
      left, and nobody cancels; it ends in the first round of which that is not so. */
  lemma EndsExactly(p: Policy, env: nat -> Turn, last: nat)
    ensures EndsAt(p, env, last) <==>
      && (forall i: nat :: i < last ==>
           Undisturbed(env(i)) && WorthRetrying(env(i).reply) && i + 1 < p.maxAttempts && !env(i).cancelInWait)
      && !(Undisturbed(env(last)) && WorthRetrying(env(last).reply) && last + 1 < p.maxAttempts
           && !env(last).cancelInWait)
  {
    forall i: nat
      ensures Continues(p, i, env(i)) <==>
        Undisturbed(env(i)) && WorthRetrying(env(i).reply) && i + 1 < p.maxAttempts && !env(i).cancelInWait
    {
    }
  }

  /** The outcome by the last round: cancelled, not repeatable, a response handed back
      as it is, a rate limit with the seconds asked for, an exhausted budget, or the
      failure's own class where no server ever answered. */
  lemma OutcomeExactly(p: Policy, env: nat -> Turn, last: nat)
    requires EndsAt(p, env, last)
    ensures var (turn, outcome) := (env(last), Final(env(last), Answered(env, last), Waits(p, last, env(last))));
      && (outcome == Uncloneable <==> !turn.cancelBefore && !turn.cloneable)
      && (outcome == Cancelled <==>
            turn.cancelBefore || (turn.cloneable && turn.cancelInFlight)
            || (Undisturbed(turn) && WorthRetrying(turn.reply) && last + 1 < p.maxAttempts && turn.cancelInWait))
    ensures var (turn, outcome) := (env(last), Final(env(last), Answered(env, last), Waits(p, last, env(last))));
      Undisturbed(turn) && outcome != Cancelled && turn.reply.Response? ==>
        && (outcome == Returned(turn.reply.status) <==> turn.reply.status !in {429, 500, 502, 503, 504})
        && (outcome == BudgetExhausted <==> turn.reply.status in {500, 502, 503, 504})
        && (turn.reply.status == 429 ==>
              outcome == RateLimited(if turn.reply.retryAfter.Some? then turn.reply.retryAfter.value else 0))
    ensures var (turn, outcome) := (env(last), Final(env(last), Answered(env, last), Waits(p, last, env(last))));
      Undisturbed(turn) && outcome != Cancelled && turn.reply.Failure? ==>
        if exists i: nat :: i < last && env(i).reply.Response? then outcome == BudgetExhausted
        else outcome == TransportFailed(if turn.reply.timeout then TimedOut
                                        else if turn.reply.connect then Classified(turn.reply.chain) else Generic)
  {
  }

  /** After a reply that names seconds the wait is those seconds, or five minutes if
      they are more; otherwise the plain wait, off by the share that was drawn. */
  lemma WaitExactly(p: Policy, i: nat, turn: Turn)
    requires ValidDraw(p, turn.draw)
    ensures turn.reply.Response? && turn.reply.retryAfter.Some? ==>
      WaitAfter(p, i, turn) ==
        (if turn.reply.retryAfter.value <= 300 then turn.reply.retryAfter.value else 300) as real * 1_000_000_000.0
    ensures turn.reply.Failure? || turn.reply.retryAfter.None? ==>
      WaitAfter(p, i, turn) ==
        PlainBackoff(p, i + 1) as real * (if p.jitter <= 0.0 then 1.0 else 1.0 + turn.draw)
  {
    if turn.reply.Failure? || turn.reply.retryAfter.None? {
      assert p.baseBackoff == 0 ==> PlainBackoff(p, i + 1) == 0;
    } else {
      ServerWait(turn.reply.retryAfter.value);
    }
  }

  lemma ServerWait(seconds: nat)
    ensures Min(seconds * SECOND, MAX_RETRY_AFTER) as real ==
      (if seconds <= 300 then seconds else 300) as real * 1_000_000_000.0
  {
    assert Min(seconds * SECOND, MAX_RETRY_AFTER) == (if seconds <= 300 then seconds else 300) * 1_000_000_000;
  }

  /** The first plain wait is twice the base, and each later one twice the one before,
      sixteen doublings at most and never above the policy's cap. */
  lemma PlainWaits(p: Policy, i: nat)
    requires ValidPolicy(p)
    ensures PlainBackoff(p, 1) == if 2 * p.baseBackoff <= p.maxBackoff then 2 * p.baseBackoff else p.maxBackoff
    ensures PlainBackoff(p, i + 1) == if i >= 16 || 2 * PlainBackoff(p, i) > p.maxBackoff
                                      then (if i >= 16 then PlainBackoff(p, i) else p.maxBackoff)
                                      else 2 * PlainBackoff(p, i)
  {
    PlainBackoffNeverOverflows(p, 1);
    PlainBackoffDoubles(p, i);
    assert Power(1) == 2;
  }
}
