/** The scheduler repository as the program runs it: rows updated in place, and the reaper's loop with its counters. */
module LeaseTable {
  import opened Outcomes
  import opened Leases

  class Scheduler {
    var rows: map<string, Row>
    var cycles: map<string, string>

    function Contents(): Db
      reads this
    {
      Db(rows, cycles)
    }

    constructor ()
      ensures Contents() == EMPTY
    {
      rows, cycles := map[], map[];
    }

    method EnsureScheduledCycle(id: string, metric: string, subject: string, key: string, at: int) returns (inserted: bool)
      modifies this`rows
      ensures (Contents(), inserted) == Ensure(old(Contents()), id, metric, subject, key, at)
    {
      var row := FreshRow(metric, subject, key, at);
      inserted := !Conflicts(Contents(), id, row);
      if inserted { rows := rows[id := row]; }
    }

    method ClaimNextCycle(worker: string, now: int, durationMs: int, pick: Option<string>) returns (r: Claimed)
      modifies this`rows
      ensures (Contents(), r) == Claim(old(Contents()), worker, now, durationMs, pick)
    {
      if !SoundDuration(durationMs) { return ClaimThrew; }
      if pick.None? || !Claimable(Contents(), pick.value, now) { return NoClaim; }
      var id := pick.value;
      if rows[id].token >= INTEGER_MAX || rows[id].attempts >= INTEGER_MAX { return ClaimThrew; }
      rows := rows[id := ClaimRow(rows[id], worker, now, durationMs)];
      r := if worker == "" then NoClaim else Handed(Lease(id, rows[id].key, worker, rows[id].token));
    }

    method RenewLease(lease: Lease, now: int, durationMs: int) returns (renewed: Updated)
      modifies this`rows
      ensures (Contents(), renewed) == Renew(old(Contents()), lease, now, durationMs)
    {
      if !SoundDuration(durationMs) { return None; }
      if !Holds(Contents(), lease) { return Some(false); }
      rows := rows[lease.id := rows[lease.id].(heartbeatAt := Some(now), expiresAt := Some(now + durationMs))];
      renewed := Some(true);
    }

    method AcknowledgeFinalized(lease: Lease) returns (acknowledged: Updated)
      modifies this`rows
      ensures (Contents(), acknowledged) == Acknowledge(old(Contents()), lease)
    {
      if lease.key !in cycles { return None; }
      if !Holds(Contents(), lease) { return Some(false); }
      if CycleTaken(Contents(), lease.id, cycles[lease.key]) { return None; }
      rows := rows[lease.id := Settle(rows[lease.id], Completed, Some(cycles[lease.key]))];
      acknowledged := Some(true);
    }

    method ReleaseLease(lease: Lease) returns (released: Updated)
      modifies this`rows
      ensures (Contents(), released) == Release(old(Contents()), lease)
    {
      if !Holds(Contents(), lease) { return Some(false); }
      rows := rows[lease.id := Settle(rows[lease.id], Pending, rows[lease.id].cycle)];
      released := Some(true);
    }

    method FailLease(lease: Lease) returns (failed: Updated)
      modifies this`rows
      ensures (Contents(), failed) == Fail(old(Contents()), lease)
    {
      if !Holds(Contents(), lease) { return Some(false); }
      rows := rows[lease.id := Settle(rows[lease.id], Leases.Failed, rows[lease.id].cycle)];
      failed := Some(true);
    }

    /** Settles one expired row of the working copy; none when a unique index refuses the update. */
    method ReapLease(now: Db, id: string, maxAttempts: int) returns (next: Db, verdict: Option<Status>)
      requires id in now.rows
      ensures verdict.None? <==> Finalized(now, id) && CycleTaken(now, id, now.cycles[now.rows[id].key])
      ensures verdict.Some? ==> verdict.value == Verdict(now, id, maxAttempts) && next == ReapRow(now, id, maxAttempts)
    {
      next := now;
      var row := now.rows[id];
      if row.key in now.cycles {
        var cycle := now.cycles[row.key];
        if CycleTaken(now, id, cycle) { return now, None; }
        next := now.(rows := now.rows[id := Settle(row, Completed, Some(cycle))]);
        return next, Some(Completed);
      }
      var status := if row.attempts >= maxAttempts then Abandoned else Pending;
      next := now.(rows := now.rows[id := Settle(row, status, row.cycle)]);
      verdict := Some(status);
    }

    /** The transaction works on a copy of the rows, which it stores when no update was refused. */
    method ReapExpiredLeases(now: int, maxAttempts: int, ids: seq<string>) returns (tally: Option<Tally>)
      modifies this`rows
      ensures (Contents(), tally) == Reap(old(Contents()), now, maxAttempts, ids)
    {
      var saved := Contents();
      if maxAttempts < 1 || maxAttempts > SAFE_INTEGER_MAX || !Reapable(saved, now, ids) { return None; }
      var current;
      current, tally := ReapSelected(saved, maxAttempts, ids);
      if tally.Some? { rows := current.rows; }
    }

    method ReapSelected(saved: Db, maxAttempts: int, ids: seq<string>) returns (current: Db, tally: Option<Tally>)
      requires forall id | id in ids :: id in saved.rows
      ensures tally.None? <==> ReapRows(saved, ids, |ids|, maxAttempts).None?
      ensures tally.Some? ==> ReapRows(saved, ids, |ids|, maxAttempts) == Some((current, tally.value))
    {
      current := saved;
      var retried, abandoned, finalized := 0, 0, 0;
      for i := 0 to |ids|
        invariant ReapRows(saved, ids, i, maxAttempts) == Some((current, Tally(retried, abandoned, finalized)))
      {
        var next, verdict := ReapLease(current, ids[i], maxAttempts);
        if verdict.None? {
          ReapFails(saved, ids, i + 1, maxAttempts);
          return saved, None;
        }
        current := next;
        if verdict.value == Completed {
          finalized := finalized + 1;
        } else if verdict.value == Pending {
          retried := retried + 1;
        } else {
          abandoned := abandoned + 1;
        }
      }
      tally := Some(Tally(retried, abandoned, finalized));
    }
  }

  lemma {:induction false} ReapFails(db: Db, ids: seq<string>, n: nat, maxAttempts: int)
    requires n <= |ids| && forall id | id in ids :: id in db.rows
    requires ReapRows(db, ids, n, maxAttempts).None?
    ensures ReapRows(db, ids, |ids|, maxAttempts).None?
    decreases |ids| - n
  {
    if n < |ids| { ReapFails(db, ids, n + 1, maxAttempts); }
  }
}
