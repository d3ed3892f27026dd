/** What the lease table guarantees over every interleaving of workers, reapers and schedulers. */
module LeaseLaws {
  import opened Outcomes
  import opened Leases

  // ---- Fencing -----------------------------------------------------------------------------------

  /** The lease was handed out for the row, or for an earlier claim of it. */
  predicate HandedOut(db: Db, lease: Lease) { lease.id in db.rows && 1 <= lease.token <= db.rows[lease.id].token }

  /** Rows never disappear, keep their identity, and their tokens only grow; only a claim makes a row run. */
  ghost predicate RowMoves(db: Db, next: Db, id: string) {
    id in db.rows ==>
      && id in next.rows
      && next.rows[id].key == db.rows[id].key
      && next.rows[id].metric == db.rows[id].metric && next.rows[id].subject == db.rows[id].subject
      && db.rows[id].token <= next.rows[id].token
      && (Terminal(db.rows[id]) ==> next.rows[id] == db.rows[id])
      && (next.rows[id].status == Running ==>
            || next.rows[id].token == db.rows[id].token + 1
            || (db.rows[id].status == Running && next.rows[id].token == db.rows[id].token
                && next.rows[id].owner == db.rows[id].owner))
  }

  /** A row among `reaped` is settled by what `db` says, any other as it was. */
  predicate ReapedSoFar(db: Db, next: Db, reaped: seq<string>, maxAttempts: int, id: string) {
    id in db.rows ==>
      && id in next.rows
      && next.rows[id] == if id in reaped then ReapRow(db, id, maxAttempts).rows[id] else db.rows[id]
  }

  lemma {:induction false} OneMoreReaped(db: Db, mid: Db, reaped: seq<string>, last: string, maxAttempts: int, id: string)
    requires last in db.rows && last !in reaped && mid.cycles == db.cycles
    requires ReapedSoFar(db, mid, reaped, maxAttempts, id) && ReapedSoFar(db, mid, reaped, maxAttempts, last)
    ensures ReapedSoFar(db, ReapRow(mid, last, maxAttempts), reaped + [last], maxAttempts, id)
  {}

  lemma {:induction false} ReapRowsMove(db: Db, ids: seq<string>, n: nat, maxAttempts: int, id: string)
    requires n <= |ids| && (forall x | x in ids :: x in db.rows && db.rows[x].status == Running)
    requires forall i, j | 0 <= i < j < |ids| :: ids[i] != ids[j]
    requires ReapRows(db, ids, n, maxAttempts).Some?
    ensures ReapedSoFar(db, ReapRows(db, ids, n, maxAttempts).value.0, ids[..n], maxAttempts, id)
  {
    if n > 0 {
      ReapRowsMove(db, ids, n - 1, maxAttempts, id);
      ReapRowsMove(db, ids, n - 1, maxAttempts, ids[n - 1]);
      assert ids[..n] == ids[..n - 1] + [ids[n - 1]];
      OneMoreReaped(db, ReapRows(db, ids, n - 1, maxAttempts).value.0, ids[..n - 1], ids[n - 1], maxAttempts, id);
    }
  }

  /** What becomes of a reaped row: completed once its cycle is durable, abandoned once its attempts are used up, else retried. */
  predicate Becomes(db: Db, id: string, maxAttempts: int, status: Status) {
    && id in db.rows
    && (status == Completed <==> db.rows[id].key in db.cycles)
    && (status == Abandoned <==> db.rows[id].key !in db.cycles && db.rows[id].attempts >= maxAttempts)
    && (status == Pending <==> db.rows[id].key !in db.cycles && db.rows[id].attempts < maxAttempts)
  }

  /** How many of the first `n` rows become that. */
  function BecomeCount(db: Db, ids: seq<string>, n: nat, maxAttempts: int, status: Status): nat
    requires n <= |ids|
  {
    if n == 0 then 0
    else BecomeCount(db, ids, n - 1, maxAttempts, status) + (if Becomes(db, ids[n - 1], maxAttempts, status) then 1 else 0)
  }

  lemma {:induction false} TallyCounts(db: Db, ids: seq<string>, n: nat, maxAttempts: int)
    requires n <= |ids| && (forall x | x in ids :: x in db.rows && db.rows[x].status == Running)
    requires (forall i, j | 0 <= i < j < |ids| :: ids[i] != ids[j]) && ReapRows(db, ids, n, maxAttempts).Some?
    ensures var tally := ReapRows(db, ids, n, maxAttempts).value.1;
      tally == Tally(BecomeCount(db, ids, n, maxAttempts, Pending), BecomeCount(db, ids, n, maxAttempts, Abandoned),
                     BecomeCount(db, ids, n, maxAttempts, Completed))
  {
    if n > 0 {
      TallyCounts(db, ids, n - 1, maxAttempts);
      ReapRowsMove(db, ids, n - 1, maxAttempts, ids[n - 1]);
    }
  }

  /**
   * A reap that does not throw settles exactly the selected rows, each by what the tables said before the first of them
   * (finalized, out of attempts, or neither), leaves every other row alone, and reports how many rows became what.
   */
  lemma {:induction false} ReapSettlesExactly(db: Db, now: int, maxAttempts: int, ids: seq<string>, id: string)
    requires Reap(db, now, maxAttempts, ids).1.Some? && id in db.rows
    ensures var (next, tally) := Reap(db, now, maxAttempts, ids);
      && next.rows.Keys == db.rows.Keys && next.cycles == db.cycles
      && (id !in ids ==> next.rows[id] == db.rows[id])
      && (id in ids ==>
            && Becomes(db, id, maxAttempts, next.rows[id].status)
            && next.rows[id] == db.rows[id].(status := next.rows[id].status, owner := None, expiresAt := None, heartbeatAt := None,
                                             cycle := if db.rows[id].key in db.cycles then Some(db.cycles[db.rows[id].key])
                                                      else db.rows[id].cycle))
      && (forall x | x in ids :: x in db.rows)
      && tally == Some(Tally(BecomeCount(db, ids, |ids|, maxAttempts, Pending), BecomeCount(db, ids, |ids|, maxAttempts, Abandoned),
                             BecomeCount(db, ids, |ids|, maxAttempts, Completed)))
  {
    assert forall x | x in ids :: x in db.rows && db.rows[x].status == Running;
    ReapRowsMove(db, ids, |ids|, maxAttempts, id);
    TallyCounts(db, ids, |ids|, maxAttempts);
    assert ids[..|ids|] == ids;
  }

  lemma {:induction false} ReapMoves(db: Db, now: int, maxAttempts: int, ids: seq<string>, id: string)
    ensures RowMoves(db, Reap(db, now, maxAttempts, ids).0, id)
    ensures Reap(db, now, maxAttempts, ids).0.rows.Keys == db.rows.Keys && Reap(db, now, maxAttempts, ids).0.cycles == db.cycles
    ensures var next := Reap(db, now, maxAttempts, ids).0;
      id in db.rows && next.rows[id] != db.rows[id] ==>
        db.rows[id].status == Running && 1 <= maxAttempts && next.rows[id] == ReapRow(db, id, maxAttempts).rows[id]
  {
    if Reap(db, now, maxAttempts, ids).1.Some? {
      assert forall x | x in ids :: x in db.rows && db.rows[x].status == Running;
      ReapRowsMove(db, ids, |ids|, maxAttempts, id);
      assert ids[..|ids|] == ids;
    }
  }

  lemma {:induction false} PerformMoves(db: Db, step: Step, id: string)
    ensures RowMoves(db, Perform(db, step), id)
  {
    if step.ReapStep? { ReapMoves(db, step.now, step.maxAttempts, step.ids, id); }
  }

  /**
   * A lease that has lost its row (released, failed, reaped, acknowledged or claimed over) never holds it again,
   * whatever any number of workers do.
   */
  lemma {:induction false} LostForever(db: Db, steps: seq<Step>, lease: Lease)
    requires HandedOut(db, lease) && !Holds(db, lease)
    ensures HandedOut(Run(db, steps), lease) && !Holds(Run(db, steps), lease)
  {
    if steps != [] {
      LostForever(db, steps[..|steps| - 1], lease);
      PerformMoves(Run(db, steps[..|steps| - 1]), steps[|steps| - 1], lease.id);
    }
  }

  /** After giving its row away a worker is fenced for good. */
  lemma {:induction false} SettlingLoses(db: Db, lease: Lease, steps: seq<Step>)
    requires HandedOut(db, lease)
    ensures forall step | step in {AcknowledgeStep(lease), ReleaseStep(lease), FailStep(lease)} ::
              Perform(db, step) != db ==> !Holds(Run(Perform(db, step), steps), lease)
  {
    forall step | step in {AcknowledgeStep(lease), ReleaseStep(lease), FailStep(lease)} && Perform(db, step) != db
      ensures !Holds(Run(Perform(db, step), steps), lease)
    {
      LostForever(Perform(db, step), steps, lease);
    }
  }

  /** Completed, failed and abandoned rows never change again. */
  lemma {:induction false} TerminalAbsorbs(db: Db, steps: seq<Step>, id: string)
    requires id in db.rows && Terminal(db.rows[id])
    ensures id in Run(db, steps).rows && Run(db, steps).rows[id] == db.rows[id]
  {
    if steps != [] {
      TerminalAbsorbs(db, steps[..|steps| - 1], id);
      PerformMoves(Run(db, steps[..|steps| - 1]), steps[|steps| - 1], id);
    }
  }

  /** Only the insert adds an active row for a metric and subject. */
  lemma {:induction false} OnlyInsertActivates(db: Db, step: Step, id: string)
    requires !step.EnsureStep? && id in Perform(db, step).rows && Active(Perform(db, step).rows[id])
    ensures id in db.rows && Active(db.rows[id])
  {
    if step.ReapStep? { ReapMoves(db, step.now, step.maxAttempts, step.ids, id); }
    PerformMoves(db, step, id);
  }

  // ---- Histories ---------------------------------------------------------------------------------

  /** The tables with what happened to them: every claim in order, and every row reaped back to pending. */
  datatype World = World(db: Db, claims: seq<Lease>, retries: seq<string>)

  function Times(ids: seq<string>, id: string): nat {
    if ids == [] then 0 else Times(ids[..|ids| - 1], id) + (if ids[|ids| - 1] == id then 1 else 0)
  }

  function ClaimsOf(claims: seq<Lease>, id: string): nat {
    if claims == [] then 0 else ClaimsOf(claims[..|claims| - 1], id) + (if claims[|claims| - 1].id == id then 1 else 0)
  }

  /** The most recent claim of a row. */
  function LastClaim(claims: seq<Lease>, id: string): Option<Lease> {
    if claims == [] then None
    else if claims[|claims| - 1].id == id then Some(claims[|claims| - 1])
    else LastClaim(claims[..|claims| - 1], id)
  }

  /** The rows among `ids` that the reaper puts back to pending. */
  function Retried(db: Db, ids: seq<string>, maxAttempts: int): seq<string>
    requires forall id | id in ids :: id in db.rows
  {
    if ids == [] then []
    else
      Retried(db, ids[..|ids| - 1], maxAttempts)
      + (if Verdict(db, ids[|ids| - 1], maxAttempts) == Pending then [ids[|ids| - 1]] else [])
  }

  function NewClaims(db: Db, step: Step): seq<Lease> {
    if step.ClaimStep? && Claims(db, step.now, step.durationMs, step.pick)
    then [LeaseOf(db, step.pick.value, step.worker)] else []
  }

  function NewRetries(db: Db, step: Step): seq<string> {
    if step.ReapStep? && Reap(db, step.now, step.maxAttempts, step.ids).1.Some?
    then Retried(db, step.ids, step.maxAttempts) else []
  }

  /** The lease a worker presents. */
  function Presented(step: Step): Option<Lease> {
    match step
    case RenewStep(lease, _, _) => Some(lease)
    case AcknowledgeStep(lease) => Some(lease)
    case ReleaseStep(lease) => Some(lease)
    case FailStep(lease) => Some(lease)
    case _ => None
  }

  /** Workers present leases that a claim gave them, however old. */
  function Take(w: World, step: Step): World {
    if Presented(step).Some? && Presented(step).value !in w.claims then w
    else World(Perform(w.db, step), w.claims + NewClaims(w.db, step), w.retries + NewRetries(w.db, step))
  }

  function History(steps: seq<Step>): World {
    if steps == [] then World(EMPTY, [], []) else Take(History(steps[..|steps| - 1]), steps[|steps| - 1])
  }

  // ---- The invariant -----------------------------------------------------------------------------

  /** The check constraints on ownership and finalization. */
  predicate SoundRow(r: Row) {
    && (if r.status == Running then r.owner.Some? && r.expiresAt.Some? && r.heartbeatAt.Some?
        else r.owner.None? && r.expiresAt.None? && r.heartbeatAt.None?)
    && (r.status == Completed <==> r.cycle.Some?)
  }

  ghost predicate RowSound(w: World, id: string) {
    && (id !in w.db.rows ==> ClaimsOf(w.claims, id) == 0 && Times(w.retries, id) == 0)
    && (id in w.db.rows ==>
          var r := w.db.rows[id];
          && SoundRow(r)
          && r.token == r.attempts == ClaimsOf(w.claims, id)
          && Times(w.retries, id) <= r.attempts
          && (r.status == Running ==>
                && Times(w.retries, id) < r.attempts
                && LastClaim(w.claims, id) == Some(Lease(id, r.key, r.owner.value, r.token)))
          && (r.status == Completed ==> r.key in w.db.cycles && r.cycle == Some(w.db.cycles[r.key])))
  }

  ghost predicate DistinctRows(db: Db) {
    forall x, y | x in db.rows && y in db.rows && x != y ::
      && db.rows[x].key != db.rows[y].key
      && (Active(db.rows[x]) && Active(db.rows[y]) ==>
            db.rows[x].metric != db.rows[y].metric || db.rows[x].subject != db.rows[y].subject)
  }

  ghost predicate DistinctCycles(db: Db) {
    forall k, l | k in db.cycles && l in db.cycles && k != l :: db.cycles[k] != db.cycles[l]
  }

  /** Later claims of a row carry larger tokens, none larger than the row's. */
  ghost predicate TokensIncrease(w: World) {
    && (forall lease | lease in w.claims :: HandedOut(w.db, lease) && lease.key == w.db.rows[lease.id].key)
    && (forall i, j | 0 <= i < j < |w.claims| && w.claims[i].id == w.claims[j].id :: w.claims[i].token < w.claims[j].token)
  }

  ghost predicate Inv(w: World) {
    (forall id :: RowSound(w, id)) && DistinctRows(w.db) && DistinctCycles(w.db) && TokensIncrease(w)
  }

  lemma {:induction false} ClaimsAppend(claims: seq<Lease>, more: seq<Lease>, id: string)
    requires |more| <= 1
    ensures ClaimsOf(claims + more, id) == ClaimsOf(claims, id) + (if more != [] && more[0].id == id then 1 else 0)
    ensures LastClaim(claims + more, id) == if more != [] && more[0].id == id then Some(more[0]) else LastClaim(claims, id)
  {
    if more != [] { assert (claims + more)[..|claims + more| - 1] == claims; } else { assert claims + more == claims; }
  }

  lemma {:induction false} TimesAppend(ids: seq<string>, more: seq<string>, id: string)
    ensures Times(ids + more, id) == Times(ids, id) + Times(more, id)
  {
    if more == [] {
      assert ids + more == ids;
    } else {
      TimesAppend(ids, more[..|more| - 1], id);
      assert (ids + more)[..|ids + more| - 1] == ids + more[..|more| - 1];
    }
  }

  lemma {:induction false} RetriedOnce(db: Db, ids: seq<string>, maxAttempts: int, id: string)
    requires (forall x | x in ids :: x in db.rows) && forall i, j | 0 <= i < j < |ids| :: ids[i] != ids[j]
    ensures Times(Retried(db, ids, maxAttempts), id) == if id in ids && Verdict(db, id, maxAttempts) == Pending then 1 else 0
  {
    if ids != [] {
      var prefix, last := ids[..|ids| - 1], ids[|ids| - 1];
      RetriedOnce(db, prefix, maxAttempts, id);
      assert ids == prefix + [last] && last !in prefix;
      if Verdict(db, last, maxAttempts) == Pending {
        TimesAppend(Retried(db, prefix, maxAttempts), [last], id);
        assert [last][..0] == [];
        assert Times([last], id) == if last == id then 1 else 0;
      } else {
        assert Retried(db, ids, maxAttempts) == Retried(db, prefix, maxAttempts);
      }
    }
  }

  // ---- Every step keeps the invariant ------------------------------------------------------------

  lemma {:induction false} EnsureKeepsRow(w: World, step: Step, id: string)
    requires RowSound(w, id) && step.EnsureStep?
    ensures RowSound(Take(w, step), id)
  {
    assert w.claims + [] == w.claims && w.retries + [] == w.retries;
  }

  lemma {:induction false} ClaimKeepsRow(w: World, step: Step, id: string)
    requires RowSound(w, id) && step.ClaimStep?
    ensures RowSound(Take(w, step), id)
  {
    ClaimsAppend(w.claims, NewClaims(w.db, step), id);
    assert w.retries + [] == w.retries;
  }

  lemma {:induction false} WorkerKeepsRow(w: World, step: Step, id: string)
    requires RowSound(w, id) && TokensIncrease(w) && Presented(step).Some?
    ensures RowSound(Take(w, step), id)
  {
    assert w.claims + [] == w.claims && w.retries + [] == w.retries;
  }

  lemma {:induction false} FinalizeKeepsRow(w: World, step: Step, id: string)
    requires RowSound(w, id) && step.FinalizeStep?
    ensures RowSound(Take(w, step), id)
  {
    assert w.claims + [] == w.claims && w.retries + [] == w.retries;
  }

  lemma {:induction false} ReapKeepsRow(w: World, step: Step, id: string)
    requires RowSound(w, id) && step.ReapStep?
    ensures RowSound(Take(w, step), id)
  {
    assert w.claims + [] == w.claims && w.retries + [] == w.retries;
    if Reap(w.db, step.now, step.maxAttempts, step.ids).1.Some? {
      assert forall x | x in step.ids :: x in w.db.rows && w.db.rows[x].status == Running;
      ReapRowsMove(w.db, step.ids, |step.ids|, step.maxAttempts, id);
      assert step.ids[..|step.ids|] == step.ids;
      RetriedOnce(w.db, step.ids, step.maxAttempts, id);
      TimesAppend(w.retries, Retried(w.db, step.ids, step.maxAttempts), id);
    }
  }

  lemma {:induction false} TakeKeepsRow(w: World, step: Step, id: string)
    requires RowSound(w, id) && TokensIncrease(w)
    ensures RowSound(Take(w, step), id)
  {
    match step
    case EnsureStep(_, _, _, _, _) => EnsureKeepsRow(w, step, id);
    case ClaimStep(_, _, _, _) => ClaimKeepsRow(w, step, id);
    case ReapStep(_, _, _) => ReapKeepsRow(w, step, id);
    case FinalizeStep(_, _) => FinalizeKeepsRow(w, step, id);
    case _ => WorkerKeepsRow(w, step, id);
  }

  lemma {:induction false} PerformKeepsDistinctRows(db: Db, step: Step)
    requires DistinctRows(db)
    ensures DistinctRows(Perform(db, step))
  {
    var next := Perform(db, step);
    forall x, y | x in next.rows && y in next.rows && x != y
      ensures next.rows[x].key != next.rows[y].key
      ensures Active(next.rows[x]) && Active(next.rows[y]) ==>
                next.rows[x].metric != next.rows[y].metric || next.rows[x].subject != next.rows[y].subject
    {
      PerformMoves(db, step, x);
      PerformMoves(db, step, y);
      if !step.EnsureStep? {
        NoNewRows(db, step);
        if Active(next.rows[x]) { OnlyInsertActivates(db, step, x); }
        if Active(next.rows[y]) { OnlyInsertActivates(db, step, y); }
      }
    }
  }

  lemma {:induction false} NoNewRows(db: Db, step: Step)
    requires !step.EnsureStep?
    ensures Perform(db, step).rows.Keys == db.rows.Keys
  {
    if step.ReapStep? { ReapMoves(db, step.now, step.maxAttempts, step.ids, ""); }
  }

  lemma {:induction false} PerformKeepsCycles(db: Db, step: Step)
    requires DistinctCycles(db)
    ensures DistinctCycles(Perform(db, step))
  {
    if step.ReapStep? { ReapMoves(db, step.now, step.maxAttempts, step.ids, ""); }
  }

  lemma {:induction false} TakeKeepsTokens(w: World, step: Step)
    requires TokensIncrease(w)
    ensures TokensIncrease(Take(w, step))
  {
    var next := Take(w, step);
    forall lease | lease in w.claims
      ensures HandedOut(next.db, lease) && lease.key == next.db.rows[lease.id].key
    {
      PerformMoves(w.db, step, lease.id);
    }
    if step.ClaimStep? && Claims(w.db, step.now, step.durationMs, step.pick) {
      var newest := LeaseOf(w.db, step.pick.value, step.worker);
      assert NewClaims(w.db, step) == [newest];
      forall i | 0 <= i < |w.claims| && w.claims[i].id == newest.id ensures w.claims[i].token < newest.token {
        assert w.claims[i] in w.claims;
      }
    } else {
      assert w.claims + [] == w.claims;
    }
  }

  lemma {:induction false} TakeKeeps(w: World, step: Step)
    requires Inv(w)
    ensures Inv(Take(w, step))
  {
    forall id ensures RowSound(Take(w, step), id) { TakeKeepsRow(w, step, id); }
    PerformKeepsDistinctRows(w.db, step);
    PerformKeepsCycles(w.db, step);
    TakeKeepsTokens(w, step);
  }

  lemma {:induction false} HistoryInv(steps: seq<Step>)
    ensures Inv(History(steps))
  {
    if steps != [] {
      HistoryInv(steps[..|steps| - 1]);
      TakeKeeps(History(steps[..|steps| - 1]), steps[|steps| - 1]);
    }
  }

  // ---- Main results ------------------------------------------------------------------------------

  /** Whoever may still change a row holds its latest claim, and the row counts its claims in token and attempts. */
  lemma {:induction false} OnlyLatestClaimHolds(steps: seq<Step>, lease: Lease)
    requires lease in History(steps).claims && Holds(History(steps).db, lease)
    ensures LastClaim(History(steps).claims, lease.id) == Some(lease)
    ensures History(steps).db.rows[lease.id].token == ClaimsOf(History(steps).claims, lease.id)
    ensures History(steps).db.rows[lease.id].attempts == ClaimsOf(History(steps).claims, lease.id)
  {
    HistoryInv(steps);
    assert RowSound(History(steps), lease.id);
  }

  /** Of two claims of one row the later one carries the larger token. */
  lemma {:induction false} ClaimsAreOrdered(steps: seq<Step>, i: nat, j: nat)
    requires i < j < |History(steps).claims| && History(steps).claims[i].id == History(steps).claims[j].id
    ensures History(steps).claims[i].token < History(steps).claims[j].token
  {
    HistoryInv(steps);
  }

  /** The table keeps its constraints: one active row a subject, owned exactly while running, finalized once. */
  lemma {:induction false} TableIsSound(steps: seq<Step>, x: string, y: string)
    requires x in History(steps).db.rows && y in History(steps).db.rows
    ensures var db := History(steps).db;
      && SoundRow(db.rows[x])
      && (db.rows[x].status == Completed ==> db.rows[x].key in db.cycles && db.rows[x].cycle == Some(db.cycles[db.rows[x].key]))
      && (x != y ==>
            && db.rows[x].key != db.rows[y].key
            && !(Active(db.rows[x]) && Active(db.rows[y]) && db.rows[x].metric == db.rows[y].metric
                 && db.rows[x].subject == db.rows[y].subject)
            && (db.rows[x].status == Completed && db.rows[y].status == Completed ==> db.rows[x].cycle != db.rows[y].cycle))
  {
    HistoryInv(steps);
    assert RowSound(History(steps), x) && RowSound(History(steps), y);
  }

  /** The unique index on finalized cycles never refuses an update: a holder whose cycle is durable acknowledges it. */
  lemma {:induction false} HolderAcknowledges(steps: seq<Step>, lease: Lease)
    requires lease in History(steps).claims && Holds(History(steps).db, lease)
    ensures Acknowledge(History(steps).db, lease).1 == if lease.key in History(steps).db.cycles then Some(true) else None
  {
    var w := History(steps);
    HistoryInv(steps);
    if lease.key in w.db.cycles {
      forall x | x in w.db.rows && x != lease.id ensures w.db.rows[x].cycle != Some(w.db.cycles[lease.key]) {
        assert RowSound(w, x);
      }
    }
  }

  /** A row is put back to pending by the reaper fewer times than the attempts it is allowed. */
  lemma {:induction false} RetriesAreBounded(steps: seq<Step>, id: string, maxAttempts: int)
    requires 1 <= maxAttempts && forall step | step in steps && step.ReapStep? :: step.maxAttempts <= maxAttempts
    ensures Times(History(steps).retries, id) <= maxAttempts - 1
  {
    if steps != [] {
      var prefix, step := steps[..|steps| - 1], steps[|steps| - 1];
      forall s | s in prefix ensures s in steps {}
      RetriesAreBounded(prefix, id, maxAttempts);
      RetryStepBounded(History(prefix), step, id, maxAttempts) by { HistoryInv(prefix); assert RowSound(History(prefix), id); }
    }
  }

  lemma {:induction false} RetryStepBounded(w: World, step: Step, id: string, maxAttempts: int)
    requires RowSound(w, id) && Times(w.retries, id) <= maxAttempts - 1 && (step.ReapStep? ==> step.maxAttempts <= maxAttempts)
    ensures Times(Take(w, step).retries, id) <= maxAttempts - 1
  {
    assert w.retries + [] == w.retries;
    if step.ReapStep? && Reap(w.db, step.now, step.maxAttempts, step.ids).1.Some? {
      RetriedOnce(w.db, step.ids, step.maxAttempts, id);
      TimesAppend(w.retries, Retried(w.db, step.ids, step.maxAttempts), id);
    }
  }

  // ---- Releases are not counted against the limit ------------------------------------------------

  const JOB: string := "job"

  /** One worker claims the row and releases it, over and over. */
  function ClaimAndRelease(n: nat): seq<Step> {
    if n == 0 then [EnsureStep(JOB, "m", "s", "k", 0)]
    else ClaimAndRelease(n - 1) + [ClaimStep("w", 0, 1, Some(JOB))] + [ReleaseStep(Lease(JOB, "k", "w", n))]
  }

  /** The row of the job is pending after `n` attempts, and the reaper never put it back. */
  predicate Tried(w: World, n: nat) {
    w.retries == [] && JOB in w.db.rows && w.db.rows[JOB] == FreshRow("m", "s", "k", 0).(token := n, attempts := n)
  }

  lemma {:induction false} FirstTry()
    ensures Tried(History(ClaimAndRelease(0)), 0)
  {
    var steps := [EnsureStep(JOB, "m", "s", "k", 0)];
    assert steps[..0] == [] && History([]) == World(EMPTY, [], []);
    assert History(steps) == Take(World(EMPTY, [], []), steps[0]);
  }

  lemma {:induction false} TwoMore(steps: seq<Step>, a: Step, b: Step)
    ensures History(steps + [a] + [b]) == Take(Take(History(steps), a), b)
  {
    var one := steps + [a];
    assert one[..|steps|] == steps && (one + [b])[..|one|] == one;
  }

  /** The bound on retries does not bound attempts: releasing a lease costs nothing, up to the width of the column. */
  lemma {:induction false} AttemptsAreUnbounded(n: nat)
    requires n <= INTEGER_MAX
    ensures Tried(History(ClaimAndRelease(n)), n)
  {
    if n == 0 {
      FirstTry();
    } else {
      AttemptsAreUnbounded(n - 1);
      TwoMore(ClaimAndRelease(n - 1), ClaimStep("w", 0, 1, Some(JOB)), ReleaseStep(Lease(JOB, "k", "w", n)));
      ClaimThenRelease(History(ClaimAndRelease(n - 1)), n);
    }
  }

  lemma {:induction false} ClaimThenRelease(w: World, n: nat)
    requires 1 <= n <= INTEGER_MAX && Tried(w, n - 1)
    ensures Tried(Take(Take(w, ClaimStep("w", 0, 1, Some(JOB))), ReleaseStep(Lease(JOB, "k", "w", n))), n)
  {
    var mid := Take(w, ClaimStep("w", 0, 1, Some(JOB)));
    assert mid.claims == w.claims + [Lease(JOB, "k", "w", n)];
    assert Holds(mid.db, Lease(JOB, "k", "w", n));
  }
}
