/**
 * Fixed-window request quotas. An entitled request takes one unit from a sustained and one from a burst counter in one
 * transaction; when either is exhausted, neither is taken. How a key is found and compared is not modelled: a request
 * arrives with the account its key belongs to, or none.
 */
module Quota {
  import opened Outcomes

  datatype Kind = Sustained | Burst

  datatype Slot = Slot(principal: string, route: string, kind: Kind, startedAt: int)

  /** Requests and window lengths in seconds; the tables only hold positive ones. */
  datatype Limits = Limits(sustained: nat, sustainedSeconds: nat, burst: nat, burstSeconds: nat)

  datatype RoutePlan = RoutePlan(enabled: bool, requests: nat, seconds: nat, burst: nat, burstSeconds: nat)

  datatype Account = Account(
    principal: string,
    active: bool,
    planEnabled: bool,
    hashMatches: bool,
    scopes: set<string>,
    requests: nat,
    seconds: nat,
    route: Option<RoutePlan>
  )

  datatype Request = Request(account: Option<Account>, route: string, scope: string, now: int)

  datatype Decision =
    | Allowed(limit: nat, remaining: int, resetAt: int)
    | Unauthorized
    | Forbidden
    | RateLimited(kind: Kind, limit: nat, resetAt: int, retryAfterSeconds: int)

  type Usage = map<Slot, nat>

  /** The check constraints of the plan tables. */
  predicate SoundAccount(a: Account) {
    && a.requests > 0 && a.seconds > 0
    && (a.route.Some? ==>
          && a.route.value.requests > 0 && a.route.value.seconds > 0 && a.route.value.burst > 0
          && 0 < a.route.value.burstSeconds <= a.route.value.seconds)
  }

  predicate SoundRequest(r: Request) { r.account.Some? ==> SoundAccount(r.account.value) }

  /** A route plan overrides the plan; without one the burst is a second of up to ten requests. */
  function LimitsOf(a: Account): Limits {
    match a.route
    case Some(p) => Limits(p.requests, p.seconds, p.burst, p.burstSeconds)
    case None => Limits(a.requests, a.seconds, if a.requests < 10 then a.requests else 10, 1)
  }

  function LimitFor(l: Limits, kind: Kind): nat { if kind == Sustained then l.sustained else l.burst }

  function SecondsFor(l: Limits, kind: Kind): nat { if kind == Sustained then l.sustainedSeconds else l.burstSeconds }

  predicate SoundLimits(l: Limits) { l.sustained > 0 && l.sustainedSeconds > 0 && l.burst > 0 && l.burstSeconds > 0 }

  // ---- Windows -----------------------------------------------------------------------------------

  function WindowStart(now: int, windowMs: nat): int
    requires windowMs > 0
  {
    now / windowMs * windowMs
  }

  function ResetAt(now: int, windowMs: nat): int
    requires windowMs > 0
  {
    WindowStart(now, windowMs) + windowMs
  }

  /** Whole seconds up to the reset, rounded up, and at least one. */
  function RetryAfter(now: int, resetAt: int): int {
    var seconds := (resetAt - now + 999) / 1000;
    if seconds > 1 then seconds else 1
  }

  function SlotOf(principal: string, route: string, kind: Kind, l: Limits, now: int): Slot
    requires SoundLimits(l)
  {
    Slot(principal, route, kind, WindowStart(now, SecondsFor(l, kind) * 1000))
  }

  // ---- The transaction ---------------------------------------------------------------------------

  function Used(usage: Usage, slot: Slot): nat { if slot in usage then usage[slot] else 0 }

  /** The first request of a window inserts its row, later ones count up below the limit. */
  function Consume(usage: Usage, slot: Slot, limit: nat): Option<Usage> {
    if slot !in usage then Some(usage[slot := 1])
    else if usage[slot] < limit then Some(usage[slot := usage[slot] + 1])
    else None
  }

  function Refusal(kind: Kind, l: Limits, now: int): Decision
    requires SoundLimits(l)
  {
    var resetAt := ResetAt(now, SecondsFor(l, kind) * 1000);
    RateLimited(kind, LimitFor(l, kind), resetAt, RetryAfter(now, resetAt))
  }

  /** None when the request may consume. */
  function Denial(r: Request): Option<Decision> {
    if r.account.None? then Some(Unauthorized)
    else
      var a := r.account.value;
      if !a.active || !a.planEnabled || !a.hashMatches then Some(Unauthorized)
      else if a.route.Some? && !a.route.value.enabled then Some(Forbidden)
      else if r.scope !in a.scopes then Some(Forbidden)
      else None
  }

  function Authorize(usage: Usage, r: Request): (Usage, Decision)
    requires SoundRequest(r)
  {
    if Denial(r).Some? then (usage, Denial(r).value)
    else
      var l := LimitsOf(r.account.value);
      var sustained := SlotOf(r.account.value.principal, r.route, Sustained, l, r.now);
      var burst := SlotOf(r.account.value.principal, r.route, Burst, l, r.now);
      match Consume(usage, sustained, l.sustained)
      case None => (usage, Refusal(Sustained, l, r.now))
      case Some(one) =>
        match Consume(one, burst, l.burst)
        case None => (usage, Refusal(Burst, l, r.now))
        case Some(two) =>
          (two, Allowed(l.sustained, l.sustained - one[sustained], ResetAt(r.now, l.sustainedSeconds * 1000)))
  }

  // ---- Histories ---------------------------------------------------------------------------------

  datatype Grant = Grant(principal: string, route: string, limits: Limits, at: int)

  datatype History = History(usage: Usage, grants: seq<Grant>)

  function Take(h: History, r: Request): History
    requires SoundRequest(r)
  {
    var (usage, decision) := Authorize(h.usage, r);
    History(usage,
            if decision.Allowed?
            then h.grants + [Grant(r.account.value.principal, r.route, LimitsOf(r.account.value), r.now)] else h.grants)
  }

  function Run(requests: seq<Request>): History
    requires forall r | r in requests :: SoundRequest(r)
  {
    if requests == [] then History(map[], []) else Take(Run(requests[..|requests| - 1]), requests[|requests| - 1])
  }

  predicate Hits(g: Grant, slot: Slot) {
    && g.principal == slot.principal && g.route == slot.route && SoundLimits(g.limits)
    && WindowStart(g.at, SecondsFor(g.limits, slot.kind) * 1000) == slot.startedAt
  }

  /** The grants that fell into a window. */
  function Granted(grants: seq<Grant>, slot: Slot): nat {
    if grants == [] then 0 else Granted(grants[..|grants| - 1], slot) + (if Hits(grants[|grants| - 1], slot) then 1 else 0)
  }

  // ---- The program -------------------------------------------------------------------------------

  class AccessRepository {
    var usage: Usage

    constructor ()
      ensures usage == map[]
    {
      usage := map[];
    }

    method ConsumeUnit(slot: Slot, limit: nat) returns (consumed: bool)
      modifies this
      ensures consumed <==> Consume(old(usage), slot, limit).Some?
      ensures usage == if consumed then Consume(old(usage), slot, limit).value else old(usage)
    {
      if slot !in usage {
        usage := usage[slot := 1];
        return true;
      }
      if usage[slot] >= limit { return false; }
      usage := usage[slot := usage[slot] + 1];
      consumed := true;
    }

    method AuthorizeAndConsume(r: Request) returns (decision: Decision)
      requires SoundRequest(r)
      modifies this
      ensures (usage, decision) == Authorize(old(usage), r)
    {
      if Denial(r).Some? { return Denial(r).value; }
      var saved := usage;
      var l := LimitsOf(r.account.value);
      var sustained := SlotOf(r.account.value.principal, r.route, Sustained, l, r.now);
      var taken := ConsumeUnit(sustained, l.sustained);
      if !taken { return Refusal(Sustained, l, r.now); }
      var count := usage[sustained];
      taken := ConsumeUnit(SlotOf(r.account.value.principal, r.route, Burst, l, r.now), l.burst);
      if !taken {
        usage := saved;
        return Refusal(Burst, l, r.now);
      }
      decision := Allowed(l.sustained, l.sustained - count, ResetAt(r.now, l.sustainedSeconds * 1000));
    }
  }
}
