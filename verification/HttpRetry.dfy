/** Sending a request with retries: the loop, the waits between attempts, and
    their bounds. Durations are nanoseconds; a jittered wait is a real number. */
module HttpRetry {
  import opened Basics

  const SECOND: nat := 1_000_000_000
  const MAX_DURATION: nat := 0xFFFF_FFFF_FFFF_FFFF * 1_000_000_000 + 999_999_999
  const MAX_RETRY_AFTER: nat := 300 * SECOND
  const MAX_U32: nat := 0xFFFF_FFFF

  datatype Policy = Policy(maxAttempts: nat, baseBackoff: nat, maxBackoff: nat, jitter: real)

  /** The ranges the fields have by their machine types. */
  predicate ValidPolicy(p: Policy) {
    p.maxAttempts <= MAX_U32 && p.baseBackoff <= MAX_DURATION && p.maxBackoff <= MAX_DURATION
  }

  datatype ChainClass = Dns | Tls | Connect

  datatype Reply =
    | Response(status: nat, retryAfter: Option<nat>)
    | Failure(timeout: bool, connect: bool, request: bool, chain: ChainClass)

  /** What the environment does in one round: whether the token is fired before the
      request, during it or during the wait, the reply, and the jitter drawn. */
  datatype Turn = Turn(cloneable: bool, cancelBefore: bool, cancelInFlight: bool, reply: Reply, draw: real,
                       cancelInWait: bool)

  datatype TransportCode = TimedOut | Generic | Classified(chain: ChainClass)

  datatype Outcome =
    | Returned(status: nat)
    | RateLimited(retryAfterSecs: nat)
    | BudgetExhausted
    | TransportFailed(code: TransportCode)
    | Cancelled
    | Uncloneable

  predicate Success(status: nat) { 200 <= status < 300 }

  predicate RetriableStatus(status: nat) {
    status == 429 || status == 500 || status == 502 || status == 503 || status == 504
  }

  predicate Retriable(r: Reply) {
    match r
    case Response(status, _) => RetriableStatus(status)
    case Failure(timeout, connect, request, _) => timeout || connect || request
  }

  // ---- waits ----

  function Power(n: nat): nat { if n == 0 then 1 else 2 * Power(n - 1) }

  function Min(a: nat, b: nat): nat { if a <= b then a else b }

  function SaturatingMul(d: nat, k: nat): nat { Min(d * k, MAX_DURATION) }

  /** The exponential wait before jitter, after so many attempts. */
  function PlainBackoff(p: Policy, attempt: nat): nat {
    if p.baseBackoff == 0 then 0 else Min(SaturatingMul(p.baseBackoff, Power(Min(attempt, 16))), p.maxBackoff)
  }

  function Clamped(frac: real): real { if frac < 0.0 then 0.0 else if frac > 1.0 then 1.0 else frac }

  /** A draw is taken from [-frac, frac) only when there is jitter. */
  predicate ValidDraw(p: Policy, draw: real) {
    Clamped(p.jitter) != 0.0 ==> -Clamped(p.jitter) <= draw < Clamped(p.jitter)
  }

  function Jittered(p: Policy, base: nat, draw: real): real {
    if Clamped(p.jitter) == 0.0 then base as real
    else base as real * (if 1.0 + draw < 0.0 then 0.0 else 1.0 + draw)
  }

  function Backoff(p: Policy, attempt: nat, retryAfter: Option<nat>, draw: real): real {
    if retryAfter.Some? then Min(retryAfter.value * SECOND, MAX_RETRY_AFTER) as real
    else if p.baseBackoff == 0 then 0.0
    else Jittered(p, PlainBackoff(p, attempt), draw)
  }

  function RetryAfterOf(r: Reply): Option<nat> { if r.Response? then r.retryAfter else None }

  /** The wait after round `i`, counted from zero. */
  function WaitAfter(p: Policy, i: nat, turn: Turn): real { Backoff(p, i + 1, RetryAfterOf(turn.reply), turn.draw) }

  // ---- what a call amounts to ----

  /** Round `i` ends in a wait. */
  predicate Waits(p: Policy, i: nat, turn: Turn) {
    turn.cloneable && !turn.cancelBefore && !turn.cancelInFlight && Retriable(turn.reply) && i + 1 < p.maxAttempts
  }

  /** Round `i` is followed by another. */
  predicate Continues(p: Policy, i: nat, turn: Turn) { Waits(p, i, turn) && !turn.cancelInWait }

  function ClassOf(f: Reply): TransportCode
    requires f.Failure?
  {
    if f.timeout then TimedOut else if !f.connect then Generic else Classified(f.chain)
  }

  /** The outcome of a call whose last round this is; `answered` tells whether a
      server had answered before. */
  function Final(turn: Turn, answered: bool, waited: bool): Outcome {
    if turn.cancelBefore then Cancelled
    else if !turn.cloneable then Uncloneable
    else if turn.cancelInFlight || waited then Cancelled
    else match turn.reply
      case Response(status, retryAfter) =>
        if !RetriableStatus(status) then Returned(status)
        else if status == 429 then RateLimited(if retryAfter.Some? then retryAfter.value else 0)
        else BudgetExhausted
      case Failure(_, _, _, _) => if answered then BudgetExhausted else TransportFailed(ClassOf(turn.reply))
  }

  ghost predicate Answered(env: nat -> Turn, n: nat) { exists i: nat :: i < n && env(i).reply.Response? }

  /** The retry loop. `last` is the round it ends in, counted from zero, and `waits`
      are the waits it began. */
  method Send(p: Policy, env: nat -> Turn) returns (outcome: Outcome, last: nat, waits: seq<real>)
    requires ValidPolicy(p)
    ensures forall i: nat :: i < last ==> Continues(p, i, env(i))
    ensures !Continues(p, last, env(last))
    ensures outcome == Final(env(last), Answered(env, last), Waits(p, last, env(last)))
    ensures |waits| == last + if Waits(p, last, env(last)) then 1 else 0
    ensures forall i :: 0 <= i < |waits| ==> waits[i] == WaitAfter(p, i, env(i))
  {
    var attempt: nat := 0;
    var lastStatus: Option<nat> := None;
    waits := [];
    last := 0;
    while true
      invariant attempt == last && |waits| == last
      invariant forall i: nat :: i < last ==> Continues(p, i, env(i))
      invariant last > 0 ==> last < p.maxAttempts
      invariant forall i :: 0 <= i < |waits| ==> waits[i] == WaitAfter(p, i, env(i))
      invariant lastStatus.Some? <==> Answered(env, last)
      decreases if last == 0 then p.maxAttempts + 1 else p.maxAttempts - last
    {
      var turn := env(last);
      if turn.cancelBefore { return Cancelled, last, waits; }
      if !turn.cloneable { return Uncloneable, last, waits; }
      if turn.cancelInFlight { return Cancelled, last, waits; }
      attempt := Min(attempt + 1, MAX_U32);
      match turn.reply {
        case Response(status, retryAfter) =>
          lastStatus := Some(status);
          if Success(status) { return Returned(status), last, waits; }
          if RetriableStatus(status) && attempt < p.maxAttempts {
            waits := waits + [Backoff(p, attempt, retryAfter, turn.draw)];
            if turn.cancelInWait { return Cancelled, last, waits; }
          } else {
            if status == 429 { return RateLimited(if retryAfter.Some? then retryAfter.value else 0), last, waits; }
            if RetriableStatus(status) { return BudgetExhausted, last, waits; }
            return Returned(status), last, waits;
          }
        case Failure(_, _, _, _) =>
          if Retriable(turn.reply) && attempt < p.maxAttempts {
            waits := waits + [Backoff(p, attempt, None, turn.draw)];
            if turn.cancelInWait { return Cancelled, last, waits; }
          } else {
            return if lastStatus.Some? then BudgetExhausted else TransportFailed(ClassOf(turn.reply)), last, waits;
          }
      }
      assert env(last).reply.Response? ==> Answered(env, last + 1);
      last := last + 1;
    }
  }

  // ---- how often, how long ----

  /** `last` is the round a call ends in. */
  ghost predicate EndsAt(p: Policy, env: nat -> Turn, last: nat) {
    (forall i: nat :: i < last ==> Continues(p, i, env(i))) && !Continues(p, last, env(last))
  }

  /** Whether the last round got as far as putting its request on the wire. */
  predicate Sent(turn: Turn) { !turn.cancelBefore && turn.cloneable }

  /** Requests never exceed the budget and waits stay below it; unless the call
      is cancelled or cannot be repeated there is one wait fewer than requests. */
  lemma BudgetHolds(p: Policy, env: nat -> Turn, last: nat)
    requires EndsAt(p, env, last)
    ensures var budget := if p.maxAttempts == 0 then 1 else p.maxAttempts;
      var waits := last + if Waits(p, last, env(last)) then 1 else 0;
      var requests := last + if Sent(env(last)) then 1 else 0;
      var outcome := Final(env(last), Answered(env, last), Waits(p, last, env(last)));
      requests <= budget && waits < budget && (outcome.Cancelled? || outcome.Uncloneable? || waits == requests - 1)
  {
    assert last > 0 ==> Continues(p, last - 1, env(last - 1));
  }

  /** A call ends in exactly one round. */
  lemma EndIsUnique(p: Policy, env: nat -> Turn, i: nat, j: nat)
    requires EndsAt(p, env, i) && EndsAt(p, env, j)
    ensures i == j
  {
    assert i < j ==> Continues(p, i, env(i));
    assert j < i ==> Continues(p, j, env(j));
  }

  /** A response handed back is a success or not worth a retry; and one of the
      statuses worth a retry is never handed back, but reported as exhausted. */
  lemma NeverReturnsRetriable(p: Policy, env: nat -> Turn, last: nat)
    requires EndsAt(p, env, last)
    ensures var outcome := Final(env(last), Answered(env, last), Waits(p, last, env(last)));
      && (outcome.Returned? ==>
           !RetriableStatus(outcome.status) && env(last).reply.Response? && env(last).reply.status == outcome.status)
      && ((outcome.RateLimited? || outcome.BudgetExhausted?) && Retriable(env(last).reply) ==>
           last + 1 >= p.maxAttempts)
  {
  }

  /** The call hands back a success exactly when some round within the budget
      brings one, every earlier round asks for a retry, and nothing interferes. */
  lemma SucceedsExactly(p: Policy, env: nat -> Turn, last: nat)
    requires EndsAt(p, env, last)
    ensures var outcome := Final(env(last), Answered(env, last), Waits(p, last, env(last)));
      (outcome.Returned? && Success(outcome.status)) <==>
        exists k: nat :: Brings(env(k)) && (forall i: nat :: i < k ==> Continues(p, i, env(i)))
  {
    var outcome := Final(env(last), Answered(env, last), Waits(p, last, env(last)));
    if k: nat :| Brings(env(k)) && forall i: nat :: i < k ==> Continues(p, i, env(i)) {
      assert !Retriable(env(k).reply);
      EndIsUnique(p, env, k, last);
    }
    if outcome.Returned? && Success(outcome.status) { assert Brings(env(last)); }
  }

  predicate Brings(turn: Turn) {
    turn.cloneable && !turn.cancelBefore && !turn.cancelInFlight && turn.reply.Response? && Success(turn.reply.status)
  }

  // ---- the size of a wait ----

  lemma {:induction false} PowerGrows(i: nat, j: nat)
    requires i <= j
    ensures 1 <= Power(i) <= Power(j)
    decreases j
  {
    if i < j { PowerGrows(i, j - 1); } else if i > 0 { PowerGrows(i - 1, i - 1); }
  }

  /** The shift stays within 32 bits and the saturation within the cap: the wait is
      the doubled base, or the cap, and never overflows. */
  lemma PlainBackoffNeverOverflows(p: Policy, attempt: nat)
    requires ValidPolicy(p)
    ensures Power(Min(attempt, 16)) <= MAX_U32
    ensures PlainBackoff(p, attempt) == Min(p.baseBackoff * Power(Min(attempt, 16)), p.maxBackoff)
    ensures PlainBackoff(p, attempt) <= MAX_DURATION
  {
    PowerGrows(Min(attempt, 16), 16);
    assert Power(4) == 16 && Power(8) == 256 && Power(12) == 4096 && Power(16) == 65536;
  }

  /** Each further attempt doubles the wait up to the cap, for sixteen attempts. */
  lemma PlainBackoffDoubles(p: Policy, attempt: nat)
    requires ValidPolicy(p)
    ensures PlainBackoff(p, attempt + 1) == if attempt < 16 then Min(2 * PlainBackoff(p, attempt), p.maxBackoff)
      else PlainBackoff(p, attempt)
  {
    PlainBackoffNeverOverflows(p, attempt);
    PlainBackoffNeverOverflows(p, attempt + 1);
    if attempt < 16 { DoubleUnderCap(p.baseBackoff, Power(attempt), p.maxBackoff); }
  }

  lemma DoubleUnderCap(base: nat, k: nat, cap: nat)
    ensures Min(base * (2 * k), cap) == Min(2 * Min(base * k, cap), cap)
  {
    assert base * (2 * k) == 2 * (base * k);
  }

  lemma {:induction false} PlainBackoffIsMonotone(p: Policy, i: nat, j: nat)
    requires ValidPolicy(p) && i <= j
    ensures PlainBackoff(p, i) <= PlainBackoff(p, j)
    decreases j - i
  {
    if i < j {
      PlainBackoffIsMonotone(p, i, j - 1);
      PlainBackoffDoubles(p, j - 1);
      PlainBackoffNeverOverflows(p, j - 1);
    }
  }

  lemma ScaleBounds(base: real, low: real, factor: real, high: real)
    requires base >= 0.0 && low <= factor <= high
    ensures base * low <= base * factor <= base * high
  {
    assert base * factor - base * low == base * (factor - low);
    assert base * high - base * factor == base * (high - factor);
  }

  function MaxReal(a: real, b: real): real { if a >= b then a else b }

  /** Longest possible wait. */
  function Ceiling(p: Policy): real {
    MaxReal(MAX_RETRY_AFTER as real, p.maxBackoff as real * (1.0 + Clamped(p.jitter)))
  }

  lemma JitteredBounds(p: Policy, base: nat, draw: real)
    requires ValidDraw(p, draw)
    ensures base as real * (1.0 - Clamped(p.jitter)) <= Jittered(p, base, draw) <=
      base as real * (1.0 + Clamped(p.jitter))
  {
    if Clamped(p.jitter) != 0.0 {
      ScaleBounds(base as real, 1.0 - Clamped(p.jitter), 1.0 + draw, 1.0 + Clamped(p.jitter));
      assert Jittered(p, base, draw) == base as real * (1.0 + draw);
    }
  }

  /** A wait the server did not set is within the jitter of the plain one. */
  lemma JitterIsBounded(p: Policy, attempt: nat, draw: real)
    requires ValidDraw(p, draw)
    ensures var plain := PlainBackoff(p, attempt) as real;
      plain * (1.0 - Clamped(p.jitter)) <= Backoff(p, attempt, None, draw) <= plain * (1.0 + Clamped(p.jitter))
  {
    if p.baseBackoff != 0 { JitteredBounds(p, PlainBackoff(p, attempt), draw); }
  }

  lemma CeilingCovers(p: Policy)
    ensures MAX_RETRY_AFTER as real <= Ceiling(p) && p.maxBackoff as real * (1.0 + Clamped(p.jitter)) <= Ceiling(p)
  {
  }

  lemma OwnWaitIsBounded(p: Policy, attempt: nat, draw: real)
    requires ValidDraw(p, draw)
    ensures 0.0 <= Backoff(p, attempt, None, draw) <= p.maxBackoff as real * (1.0 + Clamped(p.jitter))
  {
    JitterIsBounded(p, attempt, draw);
    JitterUnderCap(PlainBackoff(p, attempt), p.maxBackoff, Clamped(p.jitter));
  }

  /** A wait the server set is what it asked for, up to five minutes; and no wait
      is longer than the ceiling. */
  lemma WaitIsBounded(p: Policy, attempt: nat, retryAfter: Option<nat>, draw: real)
    requires ValidDraw(p, draw)
    ensures retryAfter.Some? && retryAfter.value <= 300 ==>
      Backoff(p, attempt, retryAfter, draw) == (retryAfter.value * SECOND) as real
    ensures 0.0 <= Backoff(p, attempt, retryAfter, draw) <= Ceiling(p)
  {
    CeilingCovers(p);
    if retryAfter.None? {
      OwnWaitIsBounded(p, attempt, draw);
    } else {
      ServerWaitIsBounded(p, attempt, retryAfter.value, draw);
    }
  }

  lemma ServerWaitIsBounded(p: Policy, attempt: nat, seconds: nat, draw: real)
    ensures 0.0 <= Backoff(p, attempt, Some(seconds), draw) <= MAX_RETRY_AFTER as real
    ensures seconds <= 300 ==> Backoff(p, attempt, Some(seconds), draw) == (seconds * SECOND) as real
  {
  }

  lemma JitterUnderCap(plain: nat, most: nat, frac: real)
    requires plain <= most && 0.0 <= frac <= 1.0
    ensures 0.0 <= plain as real * (1.0 - frac)
    ensures plain as real * (1.0 + frac) <= most as real * (1.0 + frac)
  {
    ScaleUp(0.0, plain as real, 1.0 - frac);
    ScaleUp(plain as real, most as real, 1.0 + frac);
  }

  lemma ScaleUp(low: real, high: real, factor: real)
    requires low <= high && factor >= 0.0
    ensures low * factor <= high * factor
  {
    assert high * factor - low * factor == (high - low) * factor;
  }

  function Sum(xs: seq<real>): real { if xs == [] then 0.0 else Sum(xs[..|xs| - 1]) + xs[|xs| - 1] }

  lemma {:induction false} SumAtMost(xs: seq<real>, bound: real)
    requires forall i :: 0 <= i < |xs| ==> xs[i] <= bound
    ensures Sum(xs) <= |xs| as real * bound
  {
    if xs != [] {
      SumAtMost(xs[..|xs| - 1], bound);
      assert |xs| as real * bound == (|xs| - 1) as real * bound + bound;
    }
  }

  function MostWaits(p: Policy): nat { if p.maxAttempts == 0 then 0 else p.maxAttempts - 1 }

  /** All waits of a call together, given any bound the ceiling stays under. */
  lemma TotalWaitIsBounded(p: Policy, env: nat -> Turn, last: nat, waits: seq<real>, bound: real)
    requires EndsAt(p, env, last) && forall i: nat :: i <= last ==> ValidDraw(p, env(i).draw)
    requires |waits| == last + if Waits(p, last, env(last)) then 1 else 0
    requires forall i :: 0 <= i < |waits| ==> waits[i] == WaitAfter(p, i, env(i))
    requires Ceiling(p) <= bound
    ensures Sum(waits) <= MostWaits(p) as real * bound
  {
    CeilingIsPositive(p);
    EachWaitIsBounded(p, env, last, waits);
    SumOfWaits(p, env, last, waits, bound);
  }

  lemma SumOfWaits(p: Policy, env: nat -> Turn, last: nat, waits: seq<real>, bound: real)
    requires EndsAt(p, env, last) && |waits| == last + if Waits(p, last, env(last)) then 1 else 0
    requires bound >= 0.0 && forall i :: 0 <= i < |waits| ==> waits[i] <= bound
    ensures Sum(waits) <= MostWaits(p) as real * bound
  {
    WaitsUnderBudget(p, env, last, |waits|);
    SumUnderBudget(waits, MostWaits(p), bound);
  }

  lemma CeilingIsPositive(p: Policy)
    ensures Ceiling(p) >= 0.0
  {
    CeilingCovers(p);
  }

  lemma WaitsUnderBudget(p: Policy, env: nat -> Turn, last: nat, n: nat)
    requires EndsAt(p, env, last) && n == last + if Waits(p, last, env(last)) then 1 else 0
    ensures n <= MostWaits(p) && n <= last + 1
  {
    BudgetHolds(p, env, last);
  }

  lemma SumUnderBudget(xs: seq<real>, most: nat, bound: real)
    requires |xs| <= most && bound >= 0.0 && forall i :: 0 <= i < |xs| ==> xs[i] <= bound
    ensures Sum(xs) <= most as real * bound
  {
    SumAtMost(xs, bound);
    CountUnderBudget(|xs|, most, bound);
    assert Sum(xs) <= |xs| as real * bound <= most as real * bound;
  }

  lemma EachWaitIsBounded(p: Policy, env: nat -> Turn, last: nat, waits: seq<real>)
    requires forall i: nat :: i <= last ==> ValidDraw(p, env(i).draw)
    requires |waits| <= last + 1 && forall i :: 0 <= i < |waits| ==> waits[i] == WaitAfter(p, i, env(i))
    ensures forall i :: 0 <= i < |waits| ==> waits[i] <= Ceiling(p)
  {
    forall i | 0 <= i < |waits| ensures waits[i] <= Ceiling(p) {
      WaitIsBounded(p, i + 1, RetryAfterOf(env(i).reply), env(i).draw);
    }
  }

  lemma CountUnderBudget(n: nat, most: nat, bound: real)
    requires n <= most && bound >= 0.0
    ensures n as real * bound <= most as real * bound
  {
    ScaleUp(n as real, most as real, bound);
  }
}
