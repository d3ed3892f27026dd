/**
 * The durable effect of a completed cycle: one transaction that inserts the cycle, its readings and its snapshot, and
 * upserts source health and discrepancies under guards. An error is a transaction that threw and was rolled back.
 * Retrieval attempts and health samples, which only have primary keys of their own, are not modelled; neither are foreign
 * keys to sources, which other transactions insert.
 */
module CycleStore {
  import opened Outcomes
  import opened Discrepancy
  import opened TextOrder

  // ---- Tables ------------------------------------------------------------------------------------

  datatype CycleRow = CycleRow(
    id: string,
    metric: string,
    subject: string,
    version: string,
    key: string,
    scheduledAt: int,
    startedAt: int,
    completedAt: int
  )

  datatype Reading = Reading(id: string, observationId: string, sourceId: string)

  datatype StoredReading = StoredReading(reading: Reading, cycleId: string)

  /** `detail` stands for the columns that are stored as given. */
  datatype Health = Health(sourceId: string, failures: int, observedAt: int, detail: string)

  datatype Contribution = Contribution(observationId: string, sourceId: string)

  datatype Snapshot = Snapshot(
    id: string, cycleId: string, metric: string, version: string, asOf: int, contributions: seq<Contribution>)

  /** A discrepancy with the columns of its row that a state does not carry. */
  datatype Stored = Stored(state: State, metric: string, subject: string)

  datatype StoredEvent = StoredEvent(event: MeasurementEvent, target: Option<string>)

  datatype Db = Db(
    cycles: map<string, CycleRow>,
    readings: map<string, StoredReading>,
    snapshots: map<string, Snapshot>,
    published: seq<string>,
    contributors: map<(string, string), string>,
    health: map<string, Health>,
    discrepancies: map<string, Stored>,
    events: seq<StoredEvent>
  )

  const EMPTY: Db := Db(map[], map[], map[], [], map[], map[], map[], [])

  /** `isPublic` says that the snapshot is announced: a public network, not a comparison of anchor reserves. */
  datatype Batch = Batch(
    cycle: CycleRow,
    readings: seq<Reading>,
    health: seq<Health>,
    snapshot: Snapshot,
    isPublic: bool,
    states: seq<State>,
    events: seq<MeasurementEvent>
  )

  datatype Failure =
    | SnapshotMismatch
    | StateInvalid
    | EventMismatch
    | CheckViolated
    | CycleIdTaken
    | KeyReused
    | UniqueViolated
    | BadFailureCount
    | NoReading
    | StaleState
    | NoOpening
    | NoDiscrepancy

  type Outcome = Result<Db, Failure>

  // ---- Before the transaction --------------------------------------------------------------------

  predicate SnapshotMatches(s: Snapshot, c: CycleRow) {
    s.cycleId == c.id && s.metric == c.metric && s.version == c.version && s.asOf == c.completedAt
  }

  /** Later states with the same discrepancy replace earlier ones. */
  function StateOf(states: seq<State>, discrepancyId: string): Option<State> {
    if states == [] then None
    else if states[|states| - 1].discrepancyId == discrepancyId then Some(states[|states| - 1])
    else StateOf(states[..|states| - 1], discrepancyId)
  }

  predicate EventMatches(e: MeasurementEvent, b: Batch) {
    && e.cycleId == b.cycle.id && e.at == b.cycle.completedAt
    && StateOf(b.states, e.discrepancyId).Some?
    && StateOf(b.states, e.discrepancyId).value.sourceId == e.sourceId
    && StateOf(b.states, e.discrepancyId).value.version == e.version
  }

  function Precheck(b: Batch): Option<Failure> {
    if !SnapshotMatches(b.snapshot, b.cycle) then Some(SnapshotMismatch)
    else if exists s :: s in b.states && !Valid(s) then Some(StateInvalid)
    else if exists e :: e in b.events && !EventMatches(e, b) then Some(EventMismatch)
    else None
  }

  // ---- The cycle row -----------------------------------------------------------------------------

  predicate TimesInOrder(c: CycleRow) { c.scheduledAt <= c.startedAt <= c.completedAt }

  predicate HasCycleKey(db: Db, key: string) { exists id :: id in db.cycles && db.cycles[id].key == key }

  predicate CycleConflicts(db: Db, c: CycleRow) { c.id in db.cycles || HasCycleKey(db, c.key) }

  /** The stored row an idempotency key owns is the requested one; start and completion may differ. */
  predicate SameIdentity(stored: CycleRow, c: CycleRow) {
    && stored.id == c.id && stored.metric == c.metric && stored.subject == c.subject && stored.version == c.version
    && stored.scheduledAt == c.scheduledAt
  }

  // ---- Readings and snapshot ---------------------------------------------------------------------

  predicate ReadingTaken(db: Db, r: Reading, cycleId: string) {
    || r.id in db.readings
    || exists id :: id in db.readings
         && (db.readings[id].reading.observationId == r.observationId
             || (db.readings[id].cycleId == cycleId && db.readings[id].reading.sourceId == r.sourceId))
  }

  function InsertReadings(db: Db, readings: seq<Reading>, cycleId: string): Outcome {
    if readings == [] then Ok(db)
    else
      match InsertReadings(db, readings[..|readings| - 1], cycleId)
      case Err(failure) => Err(failure)
      case Ok(before) =>
        var r := readings[|readings| - 1];
        if ReadingTaken(before, r, cycleId) then Err(UniqueViolated)
        else Ok(before.(readings := before.readings[r.id := StoredReading(r, cycleId)]))
  }

  predicate SnapshotTaken(db: Db, s: Snapshot) {
    s.id in db.snapshots || exists id :: id in db.snapshots && db.snapshots[id].cycleId == s.cycleId
  }

  function InsertSnapshot(db: Db, s: Snapshot, isPublic: bool): Outcome {
    if SnapshotTaken(db, s) then Err(UniqueViolated)
    else if isPublic && s.id in db.published then Err(UniqueViolated)
    else Ok(db.(snapshots := db.snapshots[s.id := s],
                published := if isPublic then db.published + [s.id] else db.published))
  }

  /** Later readings of one observation replace earlier ones. */
  function ReadingOf(readings: seq<Reading>, observationId: string): Option<Reading> {
    if readings == [] then None
    else if readings[|readings| - 1].observationId == observationId then Some(readings[|readings| - 1])
    else ReadingOf(readings[..|readings| - 1], observationId)
  }

  predicate ContributionTaken(db: Db, snapshotId: string, readingId: string, sourceId: string) {
    || (snapshotId, readingId) in db.contributors
    || exists k :: k in db.contributors && k.0 == snapshotId && db.contributors[k] == sourceId
  }

  function InsertContributions(db: Db, s: Snapshot, readings: seq<Reading>, n: nat): Outcome
    requires n <= |s.contributions|
  {
    if n == 0 then Ok(db)
    else
      match InsertContributions(db, s, readings, n - 1)
      case Err(failure) => Err(failure)
      case Ok(before) =>
        var c := s.contributions[n - 1];
        var r := ReadingOf(readings, c.observationId);
        if r.None? then Err(NoReading)
        else if r.value.sourceId != c.sourceId then Err(NoReading)
        else if ContributionTaken(before, s.id, r.value.id, c.sourceId) then Err(UniqueViolated)
        else Ok(before.(contributors := before.contributors[(s.id, r.value.id) := c.sourceId]))
  }

  // ---- Source health -----------------------------------------------------------------------------

  /** A record replaces the stored one only when it was observed strictly later. */
  function Fresher(health: map<string, Health>, h: Health): map<string, Health> {
    if h.sourceId in health && health[h.sourceId].observedAt >= h.observedAt then health else health[h.sourceId := h]
  }

  function UpsertHealth(db: Db, records: seq<Health>): Outcome {
    if records == [] then Ok(db)
    else
      match UpsertHealth(db, records[..|records| - 1])
      case Err(failure) => Err(failure)
      case Ok(before) =>
        var h := records[|records| - 1];
        if h.failures < 0 || h.failures > SAFE_INTEGER_MAX then Err(BadFailureCount)
        else Ok(before.(health := Fresher(before.health, h)))
  }

  // ---- Discrepancies -----------------------------------------------------------------------------

  /** The identity and the time guard under which a stored discrepancy may be updated. */
  predicate MayReplace(stored: Stored, s: State, c: CycleRow) {
    && stored.state.lastFinalizedAt < s.lastFinalizedAt
    && stored.state.sourceId == s.sourceId && stored.metric == c.metric && stored.subject == c.subject
    && stored.state.version == s.version && stored.state.namedParty == s.namedParty
  }

  /** The first observation of a row is never updated. */
  function Replaced(stored: Stored, s: State): Stored {
    stored.(state := s.(firstObservedAt := stored.state.firstObservedAt))
  }

  predicate RowTimesInOrder(s: State) {
    s.firstObservedAt <= s.lastObservedAt <= s.lastFinalizedAt && s.firstObservedAt <= s.publicationUpdatedAt
  }

  /** A partial unique index allows one open discrepancy for a source and subject. */
  predicate OpenTaken(db: Db, id: string, row: Stored) {
    && row.state.lifecycle == Open
    && exists x :: x in db.discrepancies && x != id && db.discrepancies[x].state.lifecycle == Open
         && db.discrepancies[x].state.sourceId == row.state.sourceId && db.discrepancies[x].metric == row.metric
         && db.discrepancies[x].subject == row.subject
  }

  function UpsertState(db: Db, s: State, c: CycleRow): Outcome {
    var id := s.discrepancyId;
    if id in db.discrepancies && !MayReplace(db.discrepancies[id], s, c) then Err(StaleState)
    else
      var row := if id in db.discrepancies then Replaced(db.discrepancies[id], s) else Stored(s, c.metric, c.subject);
      if !RowTimesInOrder(row.state) then Err(CheckViolated)
      else if OpenTaken(db, id, row) then Err(UniqueViolated)
      else Ok(db.(discrepancies := db.discrepancies[id := row]))
  }

  /** Only the states this cycle finalized are written. */
  function UpsertStates(db: Db, states: seq<State>, c: CycleRow): Outcome {
    if states == [] then Ok(db)
    else
      match UpsertStates(db, states[..|states| - 1], c)
      case Err(failure) => Err(failure)
      case Ok(before) =>
        var s := states[|states| - 1];
        if s.lastFinalizedCycleId == c.id then UpsertState(before, s, c) else Ok(before)
  }

  // ---- Events ------------------------------------------------------------------------------------

  predicate Opens(e: StoredEvent, discrepancyId: string) {
    e.event.discrepancyId == discrepancyId && e.event.kind == Opened
  }

  predicate Before(a: MeasurementEvent, b: MeasurementEvent) { a.at < b.at || (a.at == b.at && Less(a.id, b.id)) }

  /** The opening of a discrepancy that comes first by time, then by id. */
  function FirstOpening(events: seq<StoredEvent>, discrepancyId: string): Option<StoredEvent> {
    if events == [] then None
    else
      var earlier, last := FirstOpening(events[..|events| - 1], discrepancyId), events[|events| - 1];
      if Opens(last, discrepancyId) && (earlier.None? || Before(last.event, earlier.value.event)) then Some(last) else earlier
  }

  predicate HasEvent(events: seq<StoredEvent>, id: string) { exists i :: 0 <= i < |events| && events[i].event.id == id }

  /** A unique index allows one event of a type to target an event. */
  predicate TargetTaken(events: seq<StoredEvent>, target: Option<string>, kind: Kind) {
    target.Some? && exists i :: 0 <= i < |events| && events[i].target == target && events[i].event.kind == kind
  }

  function InsertEvent(db: Db, e: MeasurementEvent): Outcome {
    var opening := FirstOpening(db.events, e.discrepancyId);
    if e.kind == ResolvedEvent && opening.None? then Err(NoOpening)
    else
      var target := if e.kind == ResolvedEvent then Some(opening.value.event.id) else None;
      if HasEvent(db.events, e.id) || TargetTaken(db.events, target, e.kind) then Err(UniqueViolated)
      else if e.discrepancyId !in db.discrepancies then Err(NoDiscrepancy)
      else Ok(db.(events := db.events + [StoredEvent(e, target)]))
  }

  function InsertEvents(db: Db, events: seq<MeasurementEvent>): Outcome {
    if events == [] then Ok(db)
    else
      match InsertEvents(db, events[..|events| - 1])
      case Err(failure) => Err(failure)
      case Ok(before) => InsertEvent(before, events[|events| - 1])
  }

  // ---- The transaction ---------------------------------------------------------------------------

  datatype Status = Inserted | Duplicate

  function InsertRest(db: Db, b: Batch): Outcome {
    match InsertReadings(db.(cycles := db.cycles[b.cycle.id := b.cycle]), b.readings, b.cycle.id)
    case Err(failure) => Err(failure)
    case Ok(one) =>
      match UpsertHealth(one, b.health)
      case Err(failure) => Err(failure)
      case Ok(two) =>
        match InsertSnapshot(two, b.snapshot, b.isPublic)
        case Err(failure) => Err(failure)
        case Ok(three) =>
          match InsertContributions(three, b.snapshot, b.readings, |b.snapshot.contributions|)
          case Err(failure) => Err(failure)
          case Ok(four) =>
            match UpsertStates(four, b.states, b.cycle)
            case Err(failure) => Err(failure)
            case Ok(five) => InsertEvents(five, b.events)
  }

  function Persist(db: Db, b: Batch): Result<(Db, Status), Failure> {
    if Precheck(b).Some? then Err(Precheck(b).value)
    else if !TimesInOrder(b.cycle) then Err(CheckViolated)
    else if CycleConflicts(db, b.cycle) then
      if !HasCycleKey(db, b.cycle.key) then Err(CycleIdTaken)
      else if exists id :: id in db.cycles && db.cycles[id].key == b.cycle.key && SameIdentity(db.cycles[id], b.cycle)
      then Ok((db, Duplicate))
      else Err(KeyReused)
    else
      match InsertRest(db, b)
      case Err(failure) => Err(failure)
      case Ok(next) => Ok((next, Inserted))
  }

  function Take(db: Db, b: Batch): Db {
    match Persist(db, b) case Ok(r) => r.0 case Err(_) => db
  }

  /** Any sequence of calls, competing or retried. */
  function Run(db: Db, batches: seq<Batch>): Db {
    if batches == [] then db else Take(Run(db, batches[..|batches| - 1]), batches[|batches| - 1])
  }
}
