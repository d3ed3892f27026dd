/** What fixed windows guarantee about any run of requests. */
module QuotaLaws {
  import opened Outcomes
  import opened Quota

  // ---- Windows -----------------------------------------------------------------------------------

  lemma {:induction false} WindowHolds(now: int, windowMs: nat)
    requires windowMs > 0
    ensures WindowStart(now, windowMs) <= now < ResetAt(now, windowMs)
  {
    assert now == now / windowMs * windowMs + now % windowMs;
  }

  /** A multiple of the window that has `now` within a window's length is the start of its window. */
  lemma {:induction false} WindowUnique(now: int, windowMs: nat, k: int)
    requires windowMs > 0 && k * windowMs <= now < k * windowMs + windowMs
    ensures WindowStart(now, windowMs) == k * windowMs
  {
    var q := now / windowMs;
    WindowHolds(now, windowMs);
    assert (k - q) * windowMs == k * windowMs - q * windowMs;
    assert (q - k) * windowMs == q * windowMs - k * windowMs;
    LessThanOne(k - q, windowMs);
    LessThanOne(q - k, windowMs);
  }

  lemma {:induction false} LessThanOne(k: int, m: nat)
    requires m > 0 && k * m < m
    ensures k < 1
  {
    if k >= 1 {
      AtLeast(k, m);
      assert false;
    }
  }

  lemma {:induction false} AtLeast(k: int, m: nat)
    requires k >= 1
    ensures k * m >= m
  {
    assert (k - 1) * m >= 0;
  }

  /** The reset is the start of the next window; waiting as told reaches it, and a second less would not. */
  lemma {:induction false} RetryReachesReset(now: int, windowMs: nat)
    requires windowMs > 0
    ensures var resetAt := ResetAt(now, windowMs); var seconds := RetryAfter(now, resetAt);
      && WindowStart(resetAt, windowMs) == resetAt
      && seconds >= 1 && now + seconds * 1000 >= resetAt && (seconds > 1 ==> now + (seconds - 1) * 1000 < resetAt)
      && WindowStart(now + seconds * 1000, windowMs) >= resetAt
  {
    var resetAt := ResetAt(now, windowMs);
    var k := now / windowMs + 1;
    assert k * windowMs == resetAt;
    WindowUnique(resetAt, windowMs, k);
    var later := now + RetryAfter(now, resetAt) * 1000;
    StartsInOrder(resetAt, later, windowMs);
  }

  lemma {:induction false} StartsInOrder(a: int, b: int, windowMs: nat)
    requires windowMs > 0 && a <= b
    ensures WindowStart(a, windowMs) <= WindowStart(b, windowMs)
  {
    WindowHolds(a, windowMs);
    WindowHolds(b, windowMs);
    var p, q := a / windowMs, b / windowMs;
    assert (p - q) * windowMs == p * windowMs - q * windowMs;
    LessThanOne(p - q, windowMs);
    assert (q - p) * windowMs >= 0;
  }

  /** An interval as long as a window meets two windows at most. */
  lemma {:induction false} TwoWindows(t: int, at: int, windowMs: nat)
    requires windowMs > 0 && t <= at < t + windowMs
    ensures var s := WindowStart(t, windowMs);
      WindowStart(at, windowMs) == s || WindowStart(at, windowMs) == s + windowMs
  {
    WindowHolds(t, windowMs);
    var k := t / windowMs;
    assert (k + 1) * windowMs == k * windowMs + windowMs;
    if at < k * windowMs + windowMs { WindowUnique(at, windowMs, k); } else { WindowUnique(at, windowMs, k + 1); }
  }

  // ---- Counters and grants -----------------------------------------------------------------------

  lemma {:induction false} SoundLimitsOf(a: Account)
    requires SoundAccount(a)
    ensures SoundLimits(LimitsOf(a))
  {}

  lemma {:induction false} AllowedCountsBoth(usage: Usage, r: Request, slot: Slot)
    requires SoundRequest(r) && Authorize(usage, r).1.Allowed?
    ensures var g := Grant(r.account.value.principal, r.route, LimitsOf(r.account.value), r.now);
      Used(Authorize(usage, r).0, slot) == Used(usage, slot) + (if Hits(g, slot) then 1 else 0)
  {
    SoundLimitsOf(r.account.value);
  }

  /** In every run a counter is the number of grants of its window. */
  lemma {:induction false} CountersCountGrants(requests: seq<Request>, slot: Slot)
    requires forall r | r in requests :: SoundRequest(r)
    ensures Used(Run(requests).usage, slot) == Granted(Run(requests).grants, slot)
  {
    if requests != [] {
      var n := |requests| - 1;
      CountersCountGrants(requests[..n], slot);
      var before, r := Run(requests[..n]), requests[n];
      if Authorize(before.usage, r).1.Allowed? {
        AllowedCountsBoth(before.usage, r, slot);
        var g := Grant(r.account.value.principal, r.route, LimitsOf(r.account.value), r.now);
        assert (before.grants + [g])[..|before.grants|] == before.grants;
      }
    }
  }

  /** Every row counts at least one request. */
  lemma {:induction false} RowsArePositive(requests: seq<Request>, slot: Slot)
    requires forall r | r in requests :: SoundRequest(r)
    ensures slot in Run(requests).usage ==> Run(requests).usage[slot] > 0
  {
    if requests != [] { RowsArePositive(requests[..|requests| - 1], slot); }
  }

  /** An entitled request is admitted exactly when both of its windows hold fewer grants than their limits. */
  lemma {:induction false} AdmittedExactly(requests: seq<Request>, r: Request)
    requires (forall x | x in requests :: SoundRequest(x)) && SoundRequest(r) && Denial(r).None?
    ensures var h := Run(requests); var l := LimitsOf(r.account.value); var p := r.account.value.principal;
      SoundLimits(l)
      && (Authorize(h.usage, r).1.Allowed? <==>
            && Granted(h.grants, SlotOf(p, r.route, Sustained, l, r.now)) < l.sustained
            && Granted(h.grants, SlotOf(p, r.route, Burst, l, r.now)) < l.burst)
  {
    var h, l, p := Run(requests), LimitsOf(r.account.value), r.account.value.principal;
    SoundLimitsOf(r.account.value);
    var sustained, burst := SlotOf(p, r.route, Sustained, l, r.now), SlotOf(p, r.route, Burst, l, r.now);
    CountersCountGrants(requests, sustained);
    CountersCountGrants(requests, burst);
    RowsArePositive(requests, sustained);
    RowsArePositive(requests, burst);
  }

  /** The account's own plan, overridden for the route where it says so; without an override a burst is a second of up to ten. */
  predicate Grants(a: Account, l: Limits) {
    match a.route
    case Some(p) =>
      l.sustained == p.requests && l.sustainedSeconds == p.seconds && l.burst == p.burst && l.burstSeconds == p.burstSeconds
    case None =>
      && l.sustained == a.requests && l.sustainedSeconds == a.seconds && l.burstSeconds == 1
      && l.burst <= a.requests && l.burst <= 10 && (l.burst == a.requests || l.burst == 10)
  }

  predicate KeyValid(a: Account) { a.active && a.planEnabled && a.hashMatches }

  predicate Permitted(a: Account, scope: string) { (a.route.Some? ==> a.route.value.enabled) && scope in a.scopes }

  /**
   * What any request of any run is told, by its account alone: unauthorized without a valid key; forbidden without the
   * route or the scope; else limited by the sustained window of its plan when that is full, by the burst window when only
   * that one is; else admitted. The numbers it is told are those of its plan and of the next window.
   */
  lemma {:induction false} AnsweredExactly(requests: seq<Request>, r: Request) returns (l: Limits)
    requires (forall x | x in requests :: SoundRequest(x)) && SoundRequest(r)
    ensures SoundLimits(l) && (r.account.Some? ==> Grants(r.account.value, l))
    ensures var h := Run(requests); var d := Authorize(h.usage, r).1;
      && (d == Unauthorized <==> r.account.None? || !KeyValid(r.account.value))
      && (d == Forbidden <==> r.account.Some? && KeyValid(r.account.value) && !Permitted(r.account.value, r.scope))
      && (r.account.Some? && KeyValid(r.account.value) && Permitted(r.account.value, r.scope) ==>
            var p := r.account.value.principal;
            var sustained := Granted(h.grants, SlotOf(p, r.route, Sustained, l, r.now));
            var burst := Granted(h.grants, SlotOf(p, r.route, Burst, l, r.now));
            if sustained >= l.sustained then ToldFull(d, Sustained, l.sustained, l.sustainedSeconds, r.now)
            else if burst >= l.burst then ToldFull(d, Burst, l.burst, l.burstSeconds, r.now)
            else d.Allowed? && d.limit == l.sustained && d.resetAt == ResetAt(r.now, l.sustainedSeconds * 1000))
  {
    if r.account.None? {
      l := Limits(1, 1, 1, 1);
    } else {
      l := LimitsOf(r.account.value);
      SoundLimitsOf(r.account.value);
      if Denial(r).None? {
        var p := r.account.value.principal;
        CountersCountGrants(requests, SlotOf(p, r.route, Sustained, l, r.now));
        CountersCountGrants(requests, SlotOf(p, r.route, Burst, l, r.now));
        RowsArePositive(requests, SlotOf(p, r.route, Sustained, l, r.now));
        RowsArePositive(requests, SlotOf(p, r.route, Burst, l, r.now));
      }
    }
  }

  predicate ToldFull(d: Decision, kind: Kind, limit: nat, seconds: nat, now: int)
    requires seconds > 0
  {
    && d.RateLimited? && d.kind == kind && d.limit == limit && d.resetAt == ResetAt(now, seconds * 1000)
    && d.retryAfterSeconds == RetryAfter(now, d.resetAt)
  }

  /** The plan may change between requests, but never allows a principal more than `bound` on a route. */
  ghost predicate LimitsWithin(requests: seq<Request>, principal: string, route: string, kind: Kind, bound: nat) {
    forall r | r in requests && r.account.Some? && r.account.value.principal == principal && r.route == route ::
      LimitFor(LimitsOf(r.account.value), kind) <= bound
  }

  /** A window never holds more grants than the greatest limit that was in force. */
  lemma {:induction false} WindowIsBounded(requests: seq<Request>, slot: Slot, bound: nat)
    requires forall r | r in requests :: SoundRequest(r)
    requires LimitsWithin(requests, slot.principal, slot.route, slot.kind, bound)
    ensures Granted(Run(requests).grants, slot) <= bound
  {
    if requests != [] {
      var n := |requests| - 1;
      WindowIsBounded(requests[..n], slot, bound);
      var before, r := Run(requests[..n]), requests[n];
      if Authorize(before.usage, r).1.Allowed? {
        AdmittedExactly(requests[..n], r);
        var g := Grant(r.account.value.principal, r.route, LimitsOf(r.account.value), r.now);
        assert (before.grants + [g])[..|before.grants|] == before.grants;
        assert r in requests;
        if Hits(g, slot) {
          assert slot == SlotOf(g.principal, g.route, slot.kind, g.limits, g.at);
        }
      }
    }
  }

  /** The length of the window of a principal on a route stands. */
  ghost predicate SameWindow(requests: seq<Request>, principal: string, route: string, kind: Kind, seconds: nat) {
    forall r | r in requests && r.account.Some? && r.account.value.principal == principal && r.route == route ::
      SecondsFor(LimitsOf(r.account.value), kind) == seconds
  }

  lemma {:induction false} GrantsKeepWindow(requests: seq<Request>, principal: string, route: string, kind: Kind, seconds: nat)
    requires (forall r | r in requests :: SoundRequest(r)) && SameWindow(requests, principal, route, kind, seconds)
    ensures forall g | g in Run(requests).grants && g.principal == principal && g.route == route ::
              SoundLimits(g.limits) && SecondsFor(g.limits, kind) == seconds
  {
    if requests != [] {
      GrantsKeepWindow(requests[..|requests| - 1], principal, route, kind, seconds);
      var r := requests[|requests| - 1];
      assert r in requests && SoundRequest(r);
      if r.account.Some? { SoundLimitsOf(r.account.value); }
    }
  }

  /** Grants to a principal on a route with `from <= at < to`. */
  function Between(grants: seq<Grant>, principal: string, route: string, from: int, to: int): nat {
    if grants == [] then 0
    else
      var g := grants[|grants| - 1];
      Between(grants[..|grants| - 1], principal, route, from, to)
      + (if g.principal == principal && g.route == route && from <= g.at < to then 1 else 0)
  }

  lemma {:induction false} BetweenTwoWindows(grants: seq<Grant>, principal: string, route: string, kind: Kind, seconds: nat, t: int)
    requires seconds > 0
    requires forall g | g in grants && g.principal == principal && g.route == route ::
               SoundLimits(g.limits) && SecondsFor(g.limits, kind) == seconds
    ensures var w := seconds * 1000; var s := WindowStart(t, w);
      Between(grants, principal, route, t, t + w)
      <= Granted(grants, Slot(principal, route, kind, s)) + Granted(grants, Slot(principal, route, kind, s + w))
  {
    if grants != [] {
      var n := |grants| - 1;
      BetweenTwoWindows(grants[..n], principal, route, kind, seconds, t);
      var g := grants[n];
      if g.principal == principal && g.route == route && t <= g.at < t + seconds * 1000 {
        assert g in grants;
        TwoWindows(t, g.at, seconds * 1000);
      }
    }
  }

  /** Any stretch of time as long as a window, wherever it starts, sees at most twice the greatest limit in force. */
  lemma {:induction false} StretchIsBounded(requests: seq<Request>, principal: string, route: string, kind: Kind, seconds: nat,
                                            bound: nat, t: int)
    requires (forall r | r in requests :: SoundRequest(r)) && seconds > 0
    requires SameWindow(requests, principal, route, kind, seconds) && LimitsWithin(requests, principal, route, kind, bound)
    ensures Between(Run(requests).grants, principal, route, t, t + seconds * 1000) <= 2 * bound
  {
    var w := seconds * 1000;
    var s := WindowStart(t, w);
    GrantsKeepWindow(requests, principal, route, kind, seconds);
    BetweenTwoWindows(Run(requests).grants, principal, route, kind, seconds, t);
    WindowIsBounded(requests, Slot(principal, route, kind, s), bound);
    WindowIsBounded(requests, Slot(principal, route, kind, s + w), bound);
  }

  /** The remaining number told to the client is what the window still admits. */
  lemma {:induction false} RemainingIsHonest(requests: seq<Request>, r: Request)
    requires (forall x | x in requests :: SoundRequest(x)) && SoundRequest(r)
    requires Authorize(Run(requests).usage, r).1.Allowed?
    ensures var l := LimitsOf(r.account.value); var d := Authorize(Run(requests).usage, r).1;
      SoundLimits(l)
      && d.remaining + Granted(Take(Run(requests), r).grants, SlotOf(r.account.value.principal, r.route, Sustained, l, r.now)) == d.limit
  {
    var l, p := LimitsOf(r.account.value), r.account.value.principal;
    SoundLimitsOf(r.account.value);
    var slot := SlotOf(p, r.route, Sustained, l, r.now);
    CountersCountGrants(requests, slot);
    AdmittedExactly(requests, r);
    AllowedCountsBoth(Run(requests).usage, r, slot);
    var all := requests + [r];
    assert all[..|requests|] == requests;
    assert Run(all) == Take(Run(requests), r);
    CountersCountGrants(all, slot);
  }
}
