/** How long a lease lasts, and what each way of ending it leaves behind. */
module LeaseTimes {
  import opened Outcomes
  import opened Leases
  import opened LeaseLaws

  // ---- Safe until it runs out --------------------------------------------------------------------

  /** The guard of an update looks at row, owner and token. */
  predicate SameLease(a: Lease, b: Lease) { a.id == b.id && a.owner == b.owner && a.token == b.token }

  /** The lease holds its row, and does not run out before `until`. */
  predicate HoldsUntil(db: Db, lease: Lease, until: int) {
    Holds(db, lease) && db.rows[lease.id].expiresAt.Some? && until <= db.rows[lease.id].expiresAt.value
  }

  /** The step does not give the lease away, does not cut it short, and does not reap after it. */
  predicate Spares(step: Step, lease: Lease, until: int) {
    match step
    case AcknowledgeStep(l) => !SameLease(l, lease)
    case ReleaseStep(l) => !SameLease(l, lease)
    case FailStep(l) => !SameLease(l, lease)
    case RenewStep(l, now, durationMs) => SameLease(l, lease) ==> until <= now + durationMs
    case ReapStep(now, _, _) => now < until
    case _ => true
  }

  lemma {:induction false} ReapSpares(db: Db, now: int, maxAttempts: int, ids: seq<string>, id: string)
    requires id in db.rows && !Expired(db, id, now)
    ensures id in Reap(db, now, maxAttempts, ids).0.rows && Reap(db, now, maxAttempts, ids).0.rows[id] == db.rows[id]
  {
    if Reap(db, now, maxAttempts, ids).1.Some? { ReapSettlesExactly(db, now, maxAttempts, ids, id); }
  }

  lemma {:induction false} StepSpares(db: Db, step: Step, lease: Lease, until: int)
    requires HoldsUntil(db, lease, until) && Spares(step, lease, until)
    ensures HoldsUntil(Perform(db, step), lease, until)
  {
    if step.ReapStep? { ReapSpares(db, step.now, step.maxAttempts, step.ids, lease.id); }
  }

  lemma {:induction false} RunSpares(db: Db, steps: seq<Step>, lease: Lease, until: int)
    requires HoldsUntil(db, lease, until) && forall step | step in steps :: Spares(step, lease, until)
    ensures HoldsUntil(Run(db, steps), lease, until)
  {
    if steps != [] {
      var prefix, step := steps[..|steps| - 1], steps[|steps| - 1];
      forall s | s in prefix ensures s in steps {}
      RunSpares(db, prefix, lease, until);
      assert step in steps;
      StepSpares(Run(db, prefix), step, lease, until);
    }
  }

  /** The picked row is due, and its counters can still grow. */
  predicate Free(db: Db, pick: Option<string>, now: int) {
    && pick.Some? && pick.value in db.rows && db.rows[pick.value].status == Pending && db.rows[pick.value].scheduledAt <= now
    && db.rows[pick.value].token < 2147483647 && db.rows[pick.value].attempts < 2147483647
  }

  /**
   * A claim runs the picked row exactly when the duration is a positive safe integer and the row is due with room in its
   * counters, under the next token and for one more attempt; it hands the lease out unless the worker's id is empty. It
   * throws exactly over the duration or a full counter, and changes nothing then.
   */
  lemma {:induction false} ClaimExactly(db: Db, worker: string, now: int, durationMs: int, pick: Option<string>)
    ensures var (next, claimed) := Claim(db, worker, now, durationMs, pick);
      var sound := 0 < durationMs <= 9007199254740991;
      && (claimed == ClaimThrew <==> !sound || (pick.Some? && Claimable(db, pick.value, now) && !Free(db, pick, now)))
      && (claimed.Handed? <==> sound && Free(db, pick, now) && worker != "")
      && (if sound && Free(db, pick, now) then
            var row := db.rows[pick.value];
            next == db.(rows := db.rows[pick.value := row.(status := Running, owner := Some(worker), token := row.token + 1,
                                                           attempts := row.attempts + 1, heartbeatAt := Some(now),
                                                           expiresAt := Some(now + durationMs))])
          else next == db)
  {}

  /** A claim hands out a lease that holds its row for the given time: reapable exactly from its end on. */
  lemma {:induction false} ClaimHolds(db: Db, worker: string, now: int, durationMs: int, pick: Option<string>, lease: Lease, t: int)
    requires Claim(db, worker, now, durationMs, pick).1 == Handed(lease)
    ensures var next := Claim(db, worker, now, durationMs, pick).0;
      && pick == Some(lease.id) && lease.owner == worker && lease.id in db.rows && lease.key == db.rows[lease.id].key
      && db.rows[lease.id].status == Pending && db.rows[lease.id].scheduledAt <= now
      && Holds(next, lease) && next.rows[lease.id].expiresAt == Some(now + durationMs)
      && next.rows[lease.id].heartbeatAt == Some(now)
      && (Expired(next, lease.id, t) <==> now + durationMs <= t)
      && next == db.(rows := db.rows[lease.id := next.rows[lease.id]])
  {}

  /** So does a renewal, which succeeds exactly while the lease holds its row, and changes nothing but the two times. */
  lemma {:induction false} RenewalHolds(db: Db, lease: Lease, now: int, durationMs: int, t: int)
    requires SoundDuration(durationMs)
    ensures var (next, updated) := Renew(db, lease, now, durationMs);
      && updated == Some(Holds(db, lease)) && (!Holds(db, lease) ==> next == db)
      && (Holds(db, lease) ==>
            && Holds(next, lease) && (Expired(next, lease.id, t) <==> now + durationMs <= t)
            && next == db.(rows := db.rows[lease.id := db.rows[lease.id].(heartbeatAt := Some(now),
                                                                          expiresAt := Some(now + durationMs))]))
  {}

  /**
   * After a claim at `now` the lease holds its row through every run that presents no release, failure or acknowledgement
   * of it, renews it to no earlier end, and reaps before it runs out.
   */
  lemma {:induction false} ClaimedIsSafe(db: Db, worker: string, now: int, durationMs: int, pick: Option<string>, lease: Lease,
                                         steps: seq<Step>)
    requires Claim(db, worker, now, durationMs, pick).1 == Handed(lease)
    requires forall step | step in steps :: Spares(step, lease, now + durationMs)
    ensures Holds(Run(Claim(db, worker, now, durationMs, pick).0, steps), lease)
  {
    RunSpares(Claim(db, worker, now, durationMs, pick).0, steps, lease, now + durationMs);
  }

  /** The same after a renewal. */
  lemma {:induction false} RenewedIsSafe(db: Db, lease: Lease, now: int, durationMs: int, steps: seq<Step>)
    requires Renew(db, lease, now, durationMs).1 == Some(true)
    requires forall step | step in steps :: Spares(step, lease, now + durationMs)
    ensures Holds(Run(Renew(db, lease, now, durationMs).0, steps), lease)
  {
    RunSpares(Renew(db, lease, now, durationMs).0, steps, lease, now + durationMs);
  }

  /** The step presents the lease in no way, and reaps before its end. */
  predicate Ignores(step: Step, lease: Lease, until: int) {
    Spares(step, lease, until) && (step.RenewStep? ==> !SameLease(step.lease, lease))
  }

  lemma {:induction false} StepIgnores(db: Db, step: Step, lease: Lease, until: int)
    requires Holds(db, lease) && db.rows[lease.id].expiresAt == Some(until) && Ignores(step, lease, until)
    ensures lease.id in Perform(db, step).rows && Perform(db, step).rows[lease.id] == db.rows[lease.id]
  {
    if step.ReapStep? { ReapSpares(db, step.now, step.maxAttempts, step.ids, lease.id); }
  }

  /** A lease nobody renews or gives away is expired exactly from its end on, whatever happens before that. */
  lemma {:induction false} ExpiresExactly(db: Db, steps: seq<Step>, lease: Lease, until: int, t: int)
    requires Holds(db, lease) && db.rows[lease.id].expiresAt == Some(until)
    requires forall step | step in steps :: Ignores(step, lease, until)
    ensures Holds(Run(db, steps), lease) && Run(db, steps).rows[lease.id] == db.rows[lease.id]
    ensures Expired(Run(db, steps), lease.id, t) <==> until <= t
  {
    if steps != [] {
      var prefix, step := steps[..|steps| - 1], steps[|steps| - 1];
      forall s | s in prefix ensures s in steps {}
      ExpiresExactly(db, prefix, lease, until, t);
      assert step in steps;
      StepIgnores(Run(db, prefix), step, lease, until);
    }
  }

  // ---- Ways to end -------------------------------------------------------------------------------

  /** A scheduled row enters exactly when its id and key are new and its metric and subject have no active row. */
  lemma {:induction false} EnsureExactly(db: Db, id: string, metric: string, subject: string, key: string, at: int, t: int)
    ensures var (next, inserted) := Ensure(db, id, metric, subject, key, at);
      && (inserted <==>
            && id !in db.rows && (forall x | x in db.rows :: db.rows[x].key != key)
            && (forall x | x in db.rows && Active(db.rows[x]) :: db.rows[x].metric != metric || db.rows[x].subject != subject))
      && (if inserted then
            && next == db.(rows := db.rows[id := next.rows[id]])
            && next.rows[id].key == key && next.rows[id].metric == metric && next.rows[id].subject == subject
            && next.rows[id].token == next.rows[id].attempts == 0 && (Claimable(next, id, t) <==> at <= t)
          else next == db)
  {}

  /** Who does not hold the row is told so and changes nothing; who does settles it, an acknowledgement only of a durable cycle. */
  lemma {:induction false} OnlyHoldersSettle(db: Db, lease: Lease)
    ensures Release(db, lease).1 == Some(Holds(db, lease)) && Fail(db, lease).1 == Some(Holds(db, lease))
    ensures Acknowledge(db, lease).1 == None || Acknowledge(db, lease).1 == Some(Holds(db, lease))
    ensures lease.key !in db.cycles ==> Acknowledge(db, lease).1 == None
    ensures !Holds(db, lease) ==> Release(db, lease).0 == Fail(db, lease).0 == Acknowledge(db, lease).0 == db
    ensures Acknowledge(db, lease).1 == None ==> Acknowledge(db, lease).0 == db
  {}

  /** A released row is claimable again, exactly from its scheduled time on. */
  lemma {:induction false} ReleasedIsClaimable(db: Db, lease: Lease, t: int)
    requires Holds(db, lease)
    ensures var (next, updated) := Release(db, lease);
      && updated == Some(true) && !Holds(next, lease)
      && (Claimable(next, lease.id, t) <==> db.rows[lease.id].scheduledAt <= t)
      && next == db.(rows := db.rows[lease.id := next.rows[lease.id]])
      && next.rows[lease.id].token == db.rows[lease.id].token && next.rows[lease.id].attempts == db.rows[lease.id].attempts
  {}

  /** A failed row stays failed, in every run: it is never claimed, reaped or completed. */
  lemma {:induction false} FailedForGood(db: Db, lease: Lease, steps: seq<Step>)
    requires Holds(db, lease)
    ensures var next := Run(Fail(db, lease).0, steps);
      Fail(db, lease).1 == Some(true) && lease.id in next.rows && next.rows[lease.id].status == Failed
  {
    TerminalAbsorbs(Fail(db, lease).0, steps, lease.id);
  }

  /** An acknowledged row stays completed with the cycle of its key, in every run. */
  lemma {:induction false} AcknowledgedForGood(db: Db, lease: Lease, steps: seq<Step>)
    requires Acknowledge(db, lease).1 == Some(true)
    ensures var next := Run(Acknowledge(db, lease).0, steps);
      && Holds(db, lease) && lease.key in db.cycles && lease.id in next.rows
      && next.rows[lease.id].status == Completed && next.rows[lease.id].cycle == Some(db.cycles[lease.key])
  {
    TerminalAbsorbs(Acknowledge(db, lease).0, steps, lease.id);
  }

  // ---- The reaper is never refused ---------------------------------------------------------------

  lemma {:induction false} NeverTaken(w: World, id: string, mid: Db, ids: seq<string>, n: nat, maxAttempts: int)
    requires Inv(w) && id in w.db.rows && w.db.rows[id].status == Running && w.db.rows[id].key in w.db.cycles
    requires n <= |ids| && (forall x | x in ids :: x in w.db.rows && w.db.rows[x].status == Running)
    requires forall i, j | 0 <= i < j < |ids| :: ids[i] != ids[j]
    requires ReapRows(w.db, ids, n, maxAttempts).Some? && mid == ReapRows(w.db, ids, n, maxAttempts).value.0
    ensures !CycleTaken(mid, id, w.db.cycles[w.db.rows[id].key])
  {
    forall x | x in mid.rows && x != id ensures mid.rows[x].cycle != Some(w.db.cycles[w.db.rows[id].key]) {
      ReapRowsMove(w.db, ids, n, maxAttempts, x);
      assert RowSound(w, x);
      assert w.db.rows[x].key != w.db.rows[id].key;
    }
  }

  lemma {:induction false} RowsAreReaped(steps: seq<Step>, db: Db, ids: seq<string>, n: nat, maxAttempts: int)
    requires db == History(steps).db && n <= |ids| && (forall x | x in ids :: x in db.rows && db.rows[x].status == Running)
    requires forall i, j | 0 <= i < j < |ids| :: ids[i] != ids[j]
    ensures ReapRows(db, ids, n, maxAttempts).Some?
  {
    if n > 0 {
      RowsAreReaped(steps, db, ids, n - 1, maxAttempts);
      NextIsReaped(steps, db, ids, n - 1, maxAttempts, ReapRows(db, ids, n - 1, maxAttempts).value.0);
    }
  }

  lemma {:induction false} NextIsReaped(steps: seq<Step>, db: Db, ids: seq<string>, n: nat, maxAttempts: int, mid: Db)
    requires db == History(steps).db && n < |ids| && (forall x | x in ids :: x in db.rows && db.rows[x].status == Running)
    requires forall i, j | 0 <= i < j < |ids| :: ids[i] != ids[j]
    requires ReapRows(db, ids, n, maxAttempts).Some? && mid == ReapRows(db, ids, n, maxAttempts).value.0
    ensures ids[n] in mid.rows
    ensures Finalized(mid, ids[n]) ==> !CycleTaken(mid, ids[n], mid.cycles[mid.rows[ids[n]].key])
  {
    HistoryInv(steps);
    assert ids[n] in ids;
    ReapRowsMove(db, ids, n, maxAttempts, ids[n]);
    if db.rows[ids[n]].key in db.cycles { NeverTaken(History(steps), ids[n], mid, ids, n, maxAttempts); }
  }

  /** At most a hundred different rows, each running on a lease that has run out. */
  predicate RunOut(db: Db, now: int, ids: seq<string>) {
    && |ids| <= 100
    && (forall i, j | 0 <= i < j < |ids| :: ids[i] != ids[j])
    && (forall id | id in ids ::
          id in db.rows && db.rows[id].status == Running && db.rows[id].expiresAt.Some? && db.rows[id].expiresAt.value <= now)
  }

  /** In every history a reap with a sound limit succeeds for exactly the answers its query may give. */
  lemma {:induction false} ReapSucceedsExactly(steps: seq<Step>, now: int, maxAttempts: int, ids: seq<string>)
    ensures var db := History(steps).db;
      Reap(db, now, maxAttempts, ids).1.Some? <==> 1 <= maxAttempts <= 9007199254740991 && RunOut(db, now, ids)
  {
    var db := History(steps).db;
    if RunOut(db, now, ids) { RowsAreReaped(steps, db, ids, |ids|, maxAttempts); }
  }

  /** A cycle becomes durable under its key once, and under one key. */
  lemma {:induction false} FinalizedOnce(db: Db, key: string, cycle: string)
    ensures var next := Finalize(db, key, cycle);
      && next.rows == db.rows && (forall k | k in db.cycles :: k in next.cycles && next.cycles[k] == db.cycles[k])
      && (key !in db.cycles && (forall k | k in db.cycles :: db.cycles[k] != cycle) ==> next.cycles == db.cycles[key := cycle])
      && (key in db.cycles || (exists k :: k in db.cycles && db.cycles[k] == cycle) ==> next == db)
  {}

  // ---- The bound on retries is met ---------------------------------------------------------------

  /** One worker claims the row over and over and lets every lease run out. */
  function ClaimAndReap(n: nat, maxAttempts: int): seq<Step> {
    if n == 0 then [EnsureStep(JOB, "m", "s", "k", 0)]
    else ClaimAndReap(n - 1, maxAttempts) + [ClaimStep("w", 0, 1, Some(JOB))] + [ReapStep(1, maxAttempts, [JOB])]
  }

  /** After `n` attempts the row was retried each time, but the attempt at the limit abandons it. */
  predicate Reaped(w: World, n: nat, maxAttempts: int) {
    && JOB in w.db.rows && w.db.cycles == map[]
    && w.db.rows[JOB] == FreshRow("m", "s", "k", 0).(token := n, attempts := n, status := if n < maxAttempts then Pending else Abandoned)
    && Times(w.retries, JOB) == if n < maxAttempts then n else maxAttempts - 1
  }

  /** Every limit is reached: the row is put back one time less than it allows attempts, and abandoned then. */
  lemma {:induction false} RetriesReachBound(n: nat, maxAttempts: int)
    requires n <= maxAttempts <= INTEGER_MAX && 1 <= maxAttempts
    ensures Reaped(History(ClaimAndReap(n, maxAttempts)), n, maxAttempts)
  {
    if n == 0 {
      FirstTry();
      assert ClaimAndReap(0, maxAttempts) == ClaimAndRelease(0);
      assert History(ClaimAndReap(0, maxAttempts)).db.cycles == map[] by {
        var steps := [EnsureStep(JOB, "m", "s", "k", 0)];
        assert steps[..0] == [] && History([]) == World(EMPTY, [], []);
      }
    } else {
      RetriesReachBound(n - 1, maxAttempts);
      TwoMore(ClaimAndReap(n - 1, maxAttempts), ClaimStep("w", 0, 1, Some(JOB)), ReapStep(1, maxAttempts, [JOB]));
      ClaimThenReap(History(ClaimAndReap(n - 1, maxAttempts)), n, maxAttempts);
    }
  }

  lemma {:induction false} ClaimThenReap(w: World, n: nat, maxAttempts: int)
    requires 1 <= n <= maxAttempts <= INTEGER_MAX && Reaped(w, n - 1, maxAttempts)
    ensures Reaped(Take(Take(w, ClaimStep("w", 0, 1, Some(JOB))), ReapStep(1, maxAttempts, [JOB])), n, maxAttempts)
  {
    var mid := Take(w, ClaimStep("w", 0, 1, Some(JOB)));
    assert w.retries + [] == w.retries;
    assert mid.db == w.db.(rows := w.db.rows[JOB := ClaimRow(w.db.rows[JOB], "w", 0, 1)]);
    OneReaped(mid, maxAttempts);
  }

  lemma {:induction false} SingleRow(db: Db, maxAttempts: int)
    requires Expired(db, JOB, 1) && db.cycles == map[] && 1 <= maxAttempts <= INTEGER_MAX
    ensures Reap(db, 1, maxAttempts, [JOB]).0 == ReapRow(db, JOB, maxAttempts) && Reap(db, 1, maxAttempts, [JOB]).1.Some?
  {
    var ids := [JOB];
    assert ids[0] == JOB && Reapable(db, 1, ids);
    assert ReapRows(db, ids, 0, maxAttempts) == Some((db, Tally(0, 0, 0)));
    assert ReapRows(db, ids, 1, maxAttempts)
      == Some((ReapRow(db, JOB, maxAttempts), Count(Tally(0, 0, 0), Verdict(db, JOB, maxAttempts))));
  }

  lemma {:induction false} OneReaped(w: World, maxAttempts: int)
    requires Expired(w.db, JOB, 1) && w.db.cycles == map[] && 1 <= maxAttempts <= INTEGER_MAX
    ensures var v := Take(w, ReapStep(1, maxAttempts, [JOB])); var r := w.db.rows[JOB];
      && v.db == w.db.(rows := w.db.rows[JOB := Settle(r, if r.attempts >= maxAttempts then Abandoned else Pending, r.cycle)])
      && Times(v.retries, JOB) == Times(w.retries, JOB) + (if r.attempts >= maxAttempts then 0 else 1)
  {
    SingleRow(w.db, maxAttempts);
    assert [JOB][0] == JOB;
    RetriedOnce(w.db, [JOB], maxAttempts, JOB);
    TimesAppend(w.retries, Retried(w.db, [JOB], maxAttempts), JOB);
  }
}
