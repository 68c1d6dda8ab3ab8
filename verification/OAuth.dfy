/** Refreshing an expired access token: what one call does while it holds the lock. */
module OAuth {
  import opened Basics

  /** An access token, the refresh token that renews it, and when it expires. */
  datatype Pair = Pair(access: string, refresh: string, expiresAt: int)

  datatype TokenResponse = TokenResponse(access: string, refresh: Option<string>, expiresIn: int)

  /** What a token request comes back with: no answer, an answer whose body could
      not be read, a success whose body may not parse, or a refusal. */
  datatype Reply = Unreachable | Unreadable | Accepted(body: Option<TokenResponse>) | Refused

  datatype Error = NetworkError | RejectedError | PersistError

  datatype Result<+T> = Ok(value: T) | Err(error: Error)

  const NANOS: int := 1_000_000_000

  /** The response brings a refresh token that is not empty. */
  predicate GivenRefresh(r: TokenResponse) { r.refresh.Some? && r.refresh.value != "" }

  /** A missing refresh token reads as the empty string. */
  function ParseReply(reply: Reply, now: int): Result<Pair> {
    match reply
    case Unreachable => Err(NetworkError)
    case Unreadable => Err(NetworkError)
    case Refused => Err(RejectedError)
    case Accepted(None) => Err(RejectedError)
    case Accepted(Some(r)) =>
      Ok(Pair(r.access, if r.refresh.Some? then r.refresh.value else "", now + r.expiresIn * NANOS))
  }

  /** The pair that replaces another: an absent refresh token keeps the old one. */
  function Renewed(held: Pair, got: Pair): Pair {
    Pair(got.access, if got.refresh == "" then held.refresh else got.refresh, got.expiresAt)
  }

  // ---- what is seen from outside ----

  datatype Event =
    | Checked(now: int)
    | Sent(token: string)
    | Granted(got: Pair)
    | Stored(pair: Pair)
    | StoreFailed
    | Bearer(token: string)

  /** Memory, the durable copy, and everything that happened, in order. */
  datatype Account = Account(mem: Pair, stored: Pair, log: seq<Event>)

  /** The inputs of one call: both clock readings, the reply, whether the pair was stored. */
  datatype Section = Section(now: int, reply: Reply, after: int, landed: bool)

  predicate Live(a: Account, now: int) { now < a.mem.expiresAt }

  function AfterCheck(a: Account, now: int): Account { a.(log := a.log + [Checked(now)]) }

  function AfterSend(a: Account): Account { a.(log := a.log + [Sent(a.mem.refresh)]) }

  function AfterGrant(a: Account, got: Pair): Account { a.(mem := Renewed(a.mem, got), log := a.log + [Granted(got)]) }

  function AfterStore(a: Account, landed: bool): Account {
    if landed then a.(stored := a.mem, log := a.log + [Stored(a.mem)]) else a.(log := a.log + [StoreFailed])
  }

  /** One whole call, with nobody in between. */
  function RunSection(a: Account, s: Section): Account {
    var checked := AfterCheck(a, s.now);
    if Live(a, s.now) then checked
    else
      var got := ParseReply(s.reply, s.after);
      if got.Err? then AfterSend(checked) else AfterStore(AfterGrant(AfterSend(checked), got.value), s.landed)
  }

  function SectionResult(a: Account, s: Section): Result<()> {
    if Live(a, s.now) then Ok(())
    else
      var got := ParseReply(s.reply, s.after);
      if got.Err? then Err(got.error) else if s.landed then Ok(()) else Err(PersistError)
  }

  /** After a refresh a call whose clock reads before the reply's reading plus the
      reply's seconds does nothing but check, written or not. */
  lemma LaterCallOnlyChecks(a: Account, s: Section, later: Section, r: TokenResponse)
    requires s.now >= a.mem.expiresAt && s.reply == Accepted(Some(r))
    requires later.now < s.after + r.expiresIn * 1_000_000_000
    ensures var b := RunSection(a, s);
      && b.mem.access == r.access && b.mem.refresh == (if GivenRefresh(r) then r.refresh.value else a.mem.refresh)
      && RunSection(b, later) == Account(b.mem, b.stored, b.log + [Checked(later.now)])
      && SectionResult(b, later) == Ok(())
  {
  }

  /** The durable copy, written as one operation that may fail. */
  class TokenStore {
    var pair: Pair

    constructor (p: Pair)
      ensures pair == p
    {
      pair := p;
    }

    method Persist(p: Pair, landed: bool) returns (ok: bool)
      modifies this
      ensures ok == landed && pair == if landed then p else old(pair)
    {
      if landed { pair := p; }
      ok := landed;
    }
  }

  class OAuthAuth {
    var access: string
    var refresh: string
    var expiresAt: int
    const store: TokenStore
    ghost var log: seq<Event>

    constructor (p: Pair, store: TokenStore)
      ensures access == p.access && refresh == p.refresh && expiresAt == p.expiresAt && this.store == store && log == []
    {
      access, refresh, expiresAt := p.access, p.refresh, p.expiresAt;
      this.store := store;
      log := [];
    }

    ghost function State(): Account
      reads this, store
    {
      Account(Pair(access, refresh, expiresAt), store.pair, log)
    }

    /** The body run under the lock. The environment supplies the clock readings,
        the reply to the request and the outcome of the write. */
    method RefreshIfExpired(now: int, reply: Reply, after: int, landed: bool) returns (r: Result<()>)
      modifies this, store
      ensures State() == RunSection(old(State()), Section(now, reply, after, landed))
      ensures r == SectionResult(old(State()), Section(now, reply, after, landed))
      ensures r.Ok? ==>
        now < old(expiresAt) || (reply.Accepted? && reply.body.Some? && landed)
      ensures now >= old(expiresAt) && reply.Accepted? && reply.body.Some? ==>
        && access == reply.body.value.access
        && refresh == (if GivenRefresh(reply.body.value) then reply.body.value.refresh.value else old(refresh))
        && expiresAt == after + reply.body.value.expiresIn * 1_000_000_000
        && (landed ==> r.Ok? && store.pair == Pair(access, refresh, expiresAt))
        && (!landed ==> r == Err(PersistError) && store.pair == old(store.pair))
      ensures now >= old(expiresAt) && !(reply.Accepted? && reply.body.Some?) ==>
        && access == old(access) && refresh == old(refresh) && expiresAt == old(expiresAt)
        && store.pair == old(store.pair)
        && r == Err(if reply.Unreachable? || reply.Unreadable? then NetworkError else RejectedError)
      ensures r.Err? && r.error != PersistError ==>
        access == old(access) && refresh == old(refresh) && expiresAt == old(expiresAt)
    {
      log := log + [Checked(now)];
      if now < expiresAt { return Ok(()); }
      log := log + [Sent(refresh)];
      var got := ParseReply(reply, after);
      if got.Err? { return Err(got.error); }
      var persistedRefresh := if got.value.refresh == "" then refresh else got.value.refresh;
      access := got.value.access;
      if got.value.refresh != "" { refresh := got.value.refresh; }
      expiresAt := got.value.expiresAt;
      log := log + [Granted(got.value)];
      var ok := store.Persist(Pair(got.value.access, persistedRefresh, got.value.expiresAt), landed);
      log := log + [if landed then Stored(Pair(access, refresh, expiresAt)) else StoreFailed];
      r := if ok then Ok(()) else Err(PersistError);
    }

    /** Refresh if need be, then attach the token held at that moment. */
    method Authenticate(now: int, reply: Reply, after: int, landed: bool) returns (r: Result<string>)
      modifies this, store
      ensures r.Ok? <==> SectionResult(old(State()), Section(now, reply, after, landed)).Ok?
      ensures r.Ok? ==> r.value == RunSection(old(State()), Section(now, reply, after, landed)).mem.access
      ensures var ran := RunSection(old(State()), Section(now, reply, after, landed));
        State() == if r.Ok? then ran.(log := ran.log + [Bearer(r.value)]) else ran
    {
      var done := RefreshIfExpired(now, reply, after, landed);
      if done.Err? { return Err(done.error); }
      log := log + [Bearer(access)];
      r := Ok(access);
    }
  }
}
