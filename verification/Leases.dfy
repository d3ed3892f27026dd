/**
 * The table of scheduled cycles: rows that workers claim under a fencing token, renew, acknowledge, release or fail, and
 * that a reaper takes back when a lease expires. Each function is one statement or transaction on the tables.
 * Columns the protocol never reads (job definition, methodology version, last error, update time) are not modelled.
 */
module Leases {
  import opened Outcomes

  const SAFE_INTEGER_MAX: int := 9007199254740991
  /** Largest value of the integer columns that hold token and attempts. */
  const INTEGER_MAX: int := 2147483647
  const REAP_LIMIT: nat := 100

  datatype Status = Pending | Running | Completed | Failed | Abandoned

  datatype Row = Row(
    metric: string,
    subject: string,
    key: string,
    scheduledAt: int,
    status: Status,
    owner: Option<string>,
    token: nat,
    expiresAt: Option<int>,
    heartbeatAt: Option<int>,
    attempts: nat,
    cycle: Option<string>
  )

  /** What a claim hands to a worker. */
  datatype Lease = Lease(id: string, key: string, owner: string, token: nat)

  /** The leases by id, and the finalized cycles by idempotency key. */
  datatype Db = Db(rows: map<string, Row>, cycles: map<string, string>)

  datatype Claimed = ClaimThrew | NoClaim | Handed(lease: Lease)

  /** An update that matched no row reports false; none is an exception. */
  type Updated = Option<bool>

  predicate Active(r: Row) { r.status == Pending || r.status == Running }

  predicate Terminal(r: Row) { !Active(r) }

  predicate SoundDuration(ms: int) { 0 < ms <= SAFE_INTEGER_MAX }

  // ---- Scheduling and claiming -------------------------------------------------------------------

  function FreshRow(metric: string, subject: string, key: string, at: int): Row {
    Row(metric, subject, key, at, Pending, None, 0, None, None, 0, None)
  }

  /** One of the unique indexes refuses the row. */
  predicate Conflicts(db: Db, id: string, row: Row) {
    || id in db.rows
    || exists x :: x in db.rows
         && (db.rows[x].key == row.key
             || (Active(db.rows[x]) && db.rows[x].metric == row.metric && db.rows[x].subject == row.subject))
  }

  function Ensure(db: Db, id: string, metric: string, subject: string, key: string, at: int): (Db, bool) {
    var row := FreshRow(metric, subject, key, at);
    if Conflicts(db, id, row) then (db, false) else (db.(rows := db.rows[id := row]), true)
  }

  predicate Claimable(db: Db, id: string, now: int) {
    id in db.rows && db.rows[id].status == Pending && db.rows[id].scheduledAt <= now
  }

  function ClaimRow(r: Row, worker: string, now: int, durationMs: int): Row {
    r.(status := Running, owner := Some(worker), token := r.token + 1, expiresAt := Some(now + durationMs),
       heartbeatAt := Some(now), attempts := r.attempts + 1)
  }

  /** The claim of `pick` takes effect. */
  predicate Claims(db: Db, now: int, durationMs: int, pick: Option<string>) {
    && SoundDuration(durationMs) && pick.Some? && Claimable(db, pick.value, now)
    && db.rows[pick.value].token < INTEGER_MAX && db.rows[pick.value].attempts < INTEGER_MAX
  }

  function LeaseOf(db: Db, id: string, worker: string): Lease
    requires id in db.rows
  {
    Lease(id, db.rows[id].key, worker, db.rows[id].token + 1)
  }

  /**
   * Claims the row the locking query picks: any due pending row, since rows locked by other claims are skipped, or none.
   * An empty worker id runs the row but hands out nothing.
   */
  function Claim(db: Db, worker: string, now: int, durationMs: int, pick: Option<string>): (Db, Claimed) {
    if !SoundDuration(durationMs) then (db, ClaimThrew)
    else if pick.None? || !Claimable(db, pick.value, now) then (db, NoClaim)
    else if !Claims(db, now, durationMs, pick) then (db, ClaimThrew)
    else
      var id := pick.value;
      (db.(rows := db.rows[id := ClaimRow(db.rows[id], worker, now, durationMs)]),
       if worker == "" then NoClaim else Handed(LeaseOf(db, id, worker)))
  }

  // ---- What the holder of a lease does -----------------------------------------------------------

  /** The guard every update of a worker carries. */
  predicate Holds(db: Db, lease: Lease) {
    && lease.id in db.rows && db.rows[lease.id].status == Running
    && db.rows[lease.id].owner == Some(lease.owner) && db.rows[lease.id].token == lease.token
  }

  function Renew(db: Db, lease: Lease, now: int, durationMs: int): (Db, Updated) {
    if !SoundDuration(durationMs) then (db, None)
    else if !Holds(db, lease) then (db, Some(false))
    else
      (db.(rows := db.rows[lease.id := db.rows[lease.id].(heartbeatAt := Some(now), expiresAt := Some(now + durationMs))]),
       Some(true))
  }

  function Settle(r: Row, status: Status, cycle: Option<string>): Row {
    r.(status := status, owner := None, expiresAt := None, heartbeatAt := None, cycle := cycle)
  }

  /** Another row already points at the cycle, which a unique index refuses. */
  predicate CycleTaken(db: Db, id: string, cycle: string) {
    exists x :: x in db.rows && x != id && db.rows[x].cycle == Some(cycle)
  }

  function Acknowledge(db: Db, lease: Lease): (Db, Updated) {
    if lease.key !in db.cycles then (db, None)
    else if !Holds(db, lease) then (db, Some(false))
    else if CycleTaken(db, lease.id, db.cycles[lease.key]) then (db, None)
    else
      (db.(rows := db.rows[lease.id := Settle(db.rows[lease.id], Completed, Some(db.cycles[lease.key]))]), Some(true))
  }

  function Release(db: Db, lease: Lease): (Db, Updated) {
    if !Holds(db, lease) then (db, Some(false))
    else (db.(rows := db.rows[lease.id := Settle(db.rows[lease.id], Pending, db.rows[lease.id].cycle)]), Some(true))
  }

  function Fail(db: Db, lease: Lease): (Db, Updated) {
    if !Holds(db, lease) then (db, Some(false))
    else (db.(rows := db.rows[lease.id := Settle(db.rows[lease.id], Failed, db.rows[lease.id].cycle)]), Some(true))
  }

  // ---- The reaper --------------------------------------------------------------------------------

  datatype Tally = Tally(retried: nat, abandoned: nat, finalized: nat)

  predicate Expired(db: Db, id: string, now: int) {
    id in db.rows && db.rows[id].status == Running && db.rows[id].expiresAt.Some? && db.rows[id].expiresAt.value <= now
  }

  /** `ids` is an answer the locking query may give: at most a hundred different expired rows. */
  predicate Reapable(db: Db, now: int, ids: seq<string>) {
    && |ids| <= REAP_LIMIT
    && (forall i, j | 0 <= i < j < |ids| :: ids[i] != ids[j])
    && (forall id | id in ids :: Expired(db, id, now))
  }

  predicate Finalized(db: Db, id: string)
    requires id in db.rows
  {
    db.rows[id].key in db.cycles
  }

  function Verdict(db: Db, id: string, maxAttempts: int): Status
    requires id in db.rows
  {
    if Finalized(db, id) then Completed else if db.rows[id].attempts >= maxAttempts then Abandoned else Pending
  }

  function ReapRow(db: Db, id: string, maxAttempts: int): Db
    requires id in db.rows
  {
    var r := db.rows[id];
    var cycle := if Finalized(db, id) then Some(db.cycles[r.key]) else r.cycle;
    db.(rows := db.rows[id := Settle(r, Verdict(db, id, maxAttempts), cycle)])
  }

  function Count(t: Tally, verdict: Status): Tally {
    if verdict == Completed then t.(finalized := t.finalized + 1)
    else if verdict == Pending then t.(retried := t.retried + 1)
    else t.(abandoned := t.abandoned + 1)
  }

  /** The reaper's loop over the first `n` rows, none when a unique index refuses an update. */
  function ReapRows(db: Db, ids: seq<string>, n: nat, maxAttempts: int): (r: Option<(Db, Tally)>)
    requires n <= |ids| && forall id | id in ids :: id in db.rows
    ensures r.Some? ==> r.value.0.rows.Keys == db.rows.Keys && r.value.0.cycles == db.cycles
  {
    if n == 0 then Some((db, Tally(0, 0, 0)))
    else
      match ReapRows(db, ids, n - 1, maxAttempts)
      case None => None
      case Some(before) =>
        var id := ids[n - 1];
        if Finalized(before.0, id) && CycleTaken(before.0, id, before.0.cycles[before.0.rows[id].key]) then None
        else Some((ReapRow(before.0, id, maxAttempts), Count(before.1, Verdict(before.0, id, maxAttempts))))
  }

  function Reap(db: Db, now: int, maxAttempts: int, ids: seq<string>): (Db, Option<Tally>) {
    if maxAttempts < 1 || maxAttempts > SAFE_INTEGER_MAX || !Reapable(db, now, ids) then (db, None)
    else
      match ReapRows(db, ids, |ids|, maxAttempts)
      case None => (db, None)
      case Some(done) => (done.0, Some(done.1))
  }

  /** The durable effect of a worker: the cycle of a key is stored once, under an id of its own. */
  function Finalize(db: Db, key: string, cycle: string): Db {
    if key in db.cycles || cycle in db.cycles.Values then db else db.(cycles := db.cycles[key := cycle])
  }

  // ---- Runs --------------------------------------------------------------------------------------

  datatype Step =
    | EnsureStep(id: string, metric: string, subject: string, key: string, at: int)
    | ClaimStep(worker: string, now: int, durationMs: int, pick: Option<string>)
    | RenewStep(lease: Lease, now: int, durationMs: int)
    | AcknowledgeStep(lease: Lease)
    | ReleaseStep(lease: Lease)
    | FailStep(lease: Lease)
    | ReapStep(now: int, maxAttempts: int, ids: seq<string>)
    | FinalizeStep(key: string, cycle: string)

  function Perform(db: Db, step: Step): Db {
    match step
    case EnsureStep(id, metric, subject, key, at) => Ensure(db, id, metric, subject, key, at).0
    case ClaimStep(worker, now, durationMs, pick) => Claim(db, worker, now, durationMs, pick).0
    case RenewStep(lease, now, durationMs) => Renew(db, lease, now, durationMs).0
    case AcknowledgeStep(lease) => Acknowledge(db, lease).0
    case ReleaseStep(lease) => Release(db, lease).0
    case FailStep(lease) => Fail(db, lease).0
    case ReapStep(now, maxAttempts, ids) => Reap(db, now, maxAttempts, ids).0
    case FinalizeStep(key, cycle) => Finalize(db, key, cycle)
  }

  /** Any interleaving of the steps of any number of workers, with any leases, stale or invented. */
  function Run(db: Db, steps: seq<Step>): Db {
    if steps == [] then db else Perform(Run(db, steps[..|steps| - 1]), steps[|steps| - 1])
  }

  const EMPTY: Db := Db(map[], map[])
}
