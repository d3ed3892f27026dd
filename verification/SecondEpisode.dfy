/**
 * Two episodes of one discrepancy in the store of completed cycles: a deviation is opened, closed and opened again under the
 * same identifier, and the cycle that closes it for the second time throws.
 */
module SecondEpisode {
  import opened Outcomes
  import opened Discrepancy
  import opened DiscrepancyLaws
  import opened CycleStore
  import opened CycleLaws
  import opened Resolutions

  datatype Watched = Watched(id: string, sourceId: string, namedParty: bool, version: string)

  const METRIC: string := "metric"
  const SUBJECT: string := "subject"

  function Prior(db: Db, w: Watched): Option<State> {
    if w.id in db.discrepancies then Some(db.discrepancies[w.id].state) else None
  }

  function Advances(db: Db, w: Watched, c: Cycle): Result<Advanced, Fault> {
    Advance(Prior(db, w), w.id, w.sourceId, w.namedParty, w.version, c)
  }

  function Row(w: Watched, c: Cycle): CycleRow { CycleRow(c.id, METRIC, SUBJECT, w.version, c.id, c.at, c.at, c.at) }

  function SnapshotFor(w: Watched, c: Cycle): CycleStore.Snapshot {
    CycleStore.Snapshot.Snapshot(c.id, c.id, METRIC, w.version, c.at, [])
  }

  /** What a cycle that measured one source persists: the stored state of its discrepancy, advanced, and the events of that. */
  function BatchOf(db: Db, w: Watched, c: Cycle): Batch {
    match Advances(db, w, c)
    case Err(_) => Batch(Row(w, c), [], [], SnapshotFor(w, c), false, [], [])
    case Ok(a) => Batch(Row(w, c), [], [], SnapshotFor(w, c), false, if a.state.Some? then [a.state.value] else [], a.events)
  }

  /** The batches of the first `n` cycles, each made from what the ones before it left. */
  function Batches(w: Watched, cycles: seq<Cycle>, n: nat): seq<Batch>
    requires n <= |cycles|
  {
    if n == 0 then []
    else Followed(Batches(w, cycles, n - 1), w, cycles[n - 1])
  }

  function Followed(batches: seq<Batch>, w: Watched, c: Cycle): (r: seq<Batch>)
    ensures |r| == |batches| + 1 && r[..|batches|] == batches && r[|batches|] == BatchOf(Run(EMPTY, batches), w, c)
  {
    batches + [BatchOf(Run(EMPTY, batches), w, c)]
  }

  // ---- One cycle ---------------------------------------------------------------------------------

  /** The store holds the cycles `used`, each under its identifier as key, and this discrepancy alone. */
  ghost predicate Holds(db: Db, w: Watched, used: set<string>, s: Option<State>) {
    && db.cycles.Keys == used && (forall id | id in db.cycles :: db.cycles[id].key == id)
    && db.snapshots.Keys == used && (forall id | id in db.snapshots :: db.snapshots[id].cycleId == id)
    && db.discrepancies == (if s.Some? then map[w.id := Stored(s.value, METRIC, SUBJECT)] else map[])
    && Named(db.events, w, used)
  }

  /** The events are those of the cycles `used`. */
  ghost predicate Named(events: seq<StoredEvent>, w: Watched, used: set<string>) {
    forall i | 0 <= i < |events| ::
      events[i].event.id == EventId(w.id, events[i].event.cycleId, events[i].event.kind) && events[i].event.cycleId in used
  }

  predicate Belongs(s: State, w: Watched) {
    && Valid(s) && s.discrepancyId == w.id && s.sourceId == w.sourceId && s.namedParty == w.namedParty && s.version == w.version
  }

  /** The tables before the events of the cycle are inserted. */
  function Staged(db: Db, w: Watched, c: Cycle, row: State): Db {
    db.(cycles := db.cycles[c.id := Row(w, c)],
        snapshots := db.snapshots[c.id := SnapshotFor(w, c)],
        discrepancies := map[w.id := Stored(row, METRIC, SUBJECT)])
  }

  function Kept(s: State, prior: Option<State>): State {
    if prior.Some? then s.(firstObservedAt := prior.value.firstObservedAt) else s
  }

  lemma {:induction false} StateWritten(db: Db, w: Watched, used: set<string>, prior: Option<State>, c: Cycle, s: State)
    requires Holds(db, w, used, prior) && Belongs(s, w) && s.lastFinalizedCycleId == c.id
    requires prior.Some? ==> Belongs(prior.value, w) && prior.value.lastFinalizedAt < s.lastFinalizedAt
                             && prior.value.firstObservedAt <= s.firstObservedAt
    ensures UpsertStates(Staged(db, w, c, s).(discrepancies := db.discrepancies), [s], Row(w, c))
         == Ok(Staged(db, w, c, Kept(s, prior)))
  {
    var four := Staged(db, w, c, s).(discrepancies := db.discrepancies);
    assert [s][..0] == [] && UpsertStates(four, [], Row(w, c)) == Ok(four);
    assert UpsertStates(four, [s], Row(w, c)) == UpsertState(four, s, Row(w, c));
    assert four.discrepancies[w.id := Stored(Kept(s, prior), METRIC, SUBJECT)] == map[w.id := Stored(Kept(s, prior), METRIC, SUBJECT)];
  }

  lemma {:induction false} Prechecked(db: Db, w: Watched, c: Cycle, a: Advanced, s: State)
    requires Advances(db, w, c) == Ok(a) && a.state == Some(s) && Valid(s)
    requires forall e | e in a.events ::
               e.cycleId == c.id && e.at == c.at && e.discrepancyId == s.discrepancyId && e.sourceId == s.sourceId
               && e.version == s.version
    ensures Precheck(BatchOf(db, w, c)).None? && TimesInOrder(Row(w, c))
  {
    var b := BatchOf(db, w, c);
    assert b.states == [s] && b.states[|b.states| - 1] == s;
    forall x | x in b.states ensures Valid(x) { }
    forall e | e in b.events ensures EventMatches(e, b) { assert StateOf(b.states, e.discrepancyId) == Some(s); }
  }

  lemma {:induction false} RestIs(db: Db, w: Watched, c: Cycle, s: State, five: Db)
    requires BatchOf(db, w, c).states == [s] && !SnapshotTaken(db.(cycles := db.cycles[c.id := Row(w, c)]), BatchOf(db, w, c).snapshot)
    requires UpsertStates(Staged(db, w, c, s).(discrepancies := db.discrepancies), [s], Row(w, c)) == Ok(five)
    ensures InsertRest(db, BatchOf(db, w, c)) == InsertEvents(five, BatchOf(db, w, c).events)
  {
    var b := BatchOf(db, w, c);
    var one := db.(cycles := db.cycles[c.id := Row(w, c)]);
    assert InsertReadings(one, [], c.id) == Ok(one) && UpsertHealth(one, []) == Ok(one);
    var three := one.(snapshots := one.snapshots[c.id := b.snapshot]);
    assert InsertSnapshot(one, b.snapshot, false) == Ok(three);
    assert InsertContributions(three, b.snapshot, [], 0) == Ok(three);
    assert three == Staged(db, w, c, s).(discrepancies := db.discrepancies);
  }

  /** The cycle inserts its row, its snapshot and the state, and whatever becomes of its events becomes of the call. */
  lemma {:induction false} Persists(db: Db, w: Watched, used: set<string>, prior: Option<State>, c: Cycle, a: Advanced, s: State)
    requires Holds(db, w, used, prior) && c.id !in used
    requires Advances(db, w, c) == Ok(a) && a.state == Some(s) && Belongs(s, w)
    requires s.lastFinalizedCycleId == c.id && s.lastFinalizedAt == c.at
    requires prior.Some? ==> Belongs(prior.value, w) && prior.value.lastFinalizedAt < c.at && prior.value.firstObservedAt <= s.firstObservedAt
    requires forall e | e in a.events ::
               e.cycleId == c.id && e.at == c.at && e.discrepancyId == w.id && e.sourceId == w.sourceId && e.version == w.version
    ensures var b := BatchOf(db, w, c);
      && !CycleConflicts(db, b.cycle) && b.events == a.events && FinalizesAll(b, a.events)
      && Persist(db, b) == match InsertEvents(Staged(db, w, c, Kept(s, prior)), a.events)
                           case Err(failure) => Err(failure)
                           case Ok(next) => Ok((next, Inserted))
  {
    Prechecked(db, w, c, a, s);
    StateWritten(db, w, used, prior, c, s);
    RestIs(db, w, c, s, Staged(db, w, c, Kept(s, prior)));
    assert StateOf([s], w.id) == Some(s);
  }

  /** All events are of discrepancies this cycle finalized. */
  ghost predicate FinalizesAll(b: Batch, events: seq<MeasurementEvent>) {
    forall e | e in events :: Finalizes(b, e.discrepancyId)
  }

  // ---- Its events --------------------------------------------------------------------------------

  /** An event of a cycle whose events are not stored. */
  lemma {:induction false} NewEvent(events: seq<StoredEvent>, w: Watched, used: set<string>, cycleId: string, kind: Kind)
    requires forall i | 0 <= i < |events| ::
               events[i].event.id == EventId(w.id, events[i].event.cycleId, events[i].event.kind)
               && (events[i].event.cycleId in used || events[i].event.kind != kind)
    requires cycleId !in used
    ensures !HasEvent(events, EventId(w.id, cycleId, kind))
  {
    forall i | 0 <= i < |events| ensures events[i].event.id != EventId(w.id, cycleId, kind) {
      if events[i].event.id == EventId(w.id, cycleId, kind) {
        EventIdInjective(w.id, events[i].event.cycleId, events[i].event.kind, w.id, cycleId, kind);
      }
    }
  }

  lemma {:induction false} OneInserted(db: Db, e: MeasurementEvent)
    ensures InsertEvents(db, [e]) == InsertEvent(db, e)
  {
    assert [e][..0] == [] && InsertEvents(db, []) == Ok(db);
  }

  lemma {:induction false} TwoInserted(db: Db, e: MeasurementEvent, f: MeasurementEvent)
    ensures InsertEvents(db, [e, f])
         == match InsertEvent(db, e) case Err(failure) => Err(failure) case Ok(mid) => InsertEvent(mid, f)
  {
    assert [e, f][..1] == [e];
    OneInserted(db, e);
  }

  /** A state a measurement closed or never opened. */
  predicate Rested(prior: Option<State>, w: Watched, at: int) {
    prior.Some? ==> Belongs(prior.value, w) && prior.value.lifecycle == Resolved && prior.value.lastFinalizedAt < at
  }

  predicate Usable(w: Watched, c: Cycle) {
    Identifier(w.id) && Identifier(w.sourceId) && Identifier(w.version) && |w.version| <= 100 && Identifier(c.id)
  }

  lemma {:induction false} OpeningAdvances(prior: Option<State>, w: Watched, c: Cycle) returns (s: State, e: MeasurementEvent)
    requires Usable(w, c) && Rested(prior, w, c.at) && c.band != WithinTolerance
    requires prior.Some? ==> prior.value.lastFinalizedCycleId != c.id
    ensures Advance(prior, w.id, w.sourceId, w.namedParty, w.version, c) == Ok(Advanced(Some(s), [e], None))
    ensures Belongs(s, w) && s.lifecycle == Open && s.cycles == 1 && s.lastFinalizedCycleId == c.id && s.lastFinalizedAt == c.at
    ensures s.firstObservedAt == s.lastObservedAt == s.publicationUpdatedAt == c.at
    ensures e == EventOf(s, Opened, c, None)
  {
    var a := Advance(prior, w.id, w.sourceId, w.namedParty, w.version, c).value;
    s, e := a.state.value, a.events[0];
  }

  lemma {:induction false} ClosingAdvances(s: State, w: Watched, c: Cycle)
    returns (next: State, back: MeasurementEvent, closing: MeasurementEvent)
    requires Usable(w, c) && Belongs(s, w) && s.lifecycle == Open && c.band == WithinTolerance
    requires s.lastFinalizedCycleId != c.id && s.lastFinalizedAt < c.at
    ensures Advance(Some(s), w.id, w.sourceId, w.namedParty, w.version, c) == Ok(Advanced(Some(next), [back, closing], None))
    ensures Belongs(next, w) && next.lifecycle == Resolved && next.lastFinalizedCycleId == c.id && next.lastFinalizedAt == c.at
    ensures next.firstObservedAt == s.firstObservedAt
    ensures back.kind == Reconverged && back.cycleId == c.id && back.at == c.at && back.discrepancyId == w.id
    ensures back.id == EventId(w.id, c.id, Reconverged) && back.sourceId == w.sourceId && back.version == w.version
    ensures closing.kind == ResolvedEvent && closing.cycleId == c.id && closing.at == c.at && closing.discrepancyId == w.id
    ensures closing.id == EventId(w.id, c.id, ResolvedEvent) && closing.sourceId == w.sourceId && closing.version == w.version
  {
    var a := Advance(Some(s), w.id, w.sourceId, w.namedParty, w.version, c).value;
    next, back, closing := a.state.value, a.events[0], a.events[1];
  }

  // ---- Opening and closing -----------------------------------------------------------------------

  /** The state is open or closed, was finalized by the cycle, and belongs to the discrepancy. */
  predicate Stands(s: State, w: Watched, lifecycle: Lifecycle, c: Cycle) {
    Belongs(s, w) && s.lifecycle == lifecycle && s.lastFinalizedCycleId == c.id && s.lastFinalizedAt == c.at
  }

  lemma {:induction false} OpeningPersists(db: Db, w: Watched, used: set<string>, prior: Option<State>, c: Cycle)
    returns (s: State, event: MeasurementEvent)
    requires Holds(db, w, used, prior) && Usable(w, c) && c.id !in used && c.band != WithinTolerance
    requires Rested(prior, w, c.at) && (prior.Some? ==> prior.value.lastFinalizedCycleId in used)
    ensures Stands(s, w, Open, c) && Coherent(BatchOf(db, w, c))
    ensures event.kind == Opened && event.discrepancyId == w.id && event.cycleId == c.id && event.id == EventId(w.id, c.id, Opened)
    ensures Persist(db, BatchOf(db, w, c)) == match InsertEvent(Staged(db, w, c, s), event)
                                              case Err(failure) => Err(failure)
                                              case Ok(next) => Ok((next, Inserted))
  {
    var begun;
    begun, event := OpeningAdvances(prior, w, c);
    Persists(db, w, used, prior, c, Advanced(Some(begun), [event], None), begun);
    s := Kept(begun, prior);
    OneInserted(Staged(db, w, c, s), event);
  }

  lemma {:induction false} Opens(db: Db, w: Watched, used: set<string>, prior: Option<State>, c: Cycle)
    returns (s: State, next: Db, e: StoredEvent)
    requires Holds(db, w, used, prior) && Usable(w, c) && c.id !in used && c.band != WithinTolerance
    requires Rested(prior, w, c.at) && (prior.Some? ==> prior.value.lastFinalizedCycleId in used)
    ensures Persist(db, BatchOf(db, w, c)) == Ok((next, Inserted)) && Coherent(BatchOf(db, w, c))
    ensures Holds(next, w, used + {c.id}, Some(s)) && Stands(s, w, Open, c)
    ensures next.events == db.events + [e] && CycleStore.Opens(e, w.id) && e.target == None
  {
    var event;
    s, event := OpeningPersists(db, w, used, prior, c);
    e := StoredEvent(event, None);
    next := Staged(db, w, c, s).(events := db.events + [e]);
    OpeningInserted(db, Staged(db, w, c, s), w, used, event);
    HoldsMore(db, next, w, used, c, s, e);
  }

  lemma {:induction false} OpeningInserted(db: Db, five: Db, w: Watched, used: set<string>, e: MeasurementEvent)
    requires Named(db.events, w, used) && five.events == db.events && w.id in five.discrepancies
    requires e.kind == Opened && e.discrepancyId == w.id && e.cycleId !in used && e.id == EventId(w.id, e.cycleId, Opened)
    ensures InsertEvent(five, e) == Ok(five.(events := db.events + [StoredEvent(e, None)]))
  {
    NewEvent(db.events, w, used, e.cycleId, Opened);
  }

  lemma {:induction false} HoldsMore(db: Db, next: Db, w: Watched, used: set<string>, c: Cycle, s: State, e: StoredEvent)
    requires Named(db.events, w, used) && db.cycles.Keys == used && db.snapshots.Keys == used
    requires (forall id | id in used :: db.cycles[id].key == id && db.snapshots[id].cycleId == id)
    requires next == Staged(db, w, c, s).(events := db.events + [e])
    requires e.event.cycleId == c.id && e.event.id == EventId(w.id, c.id, e.event.kind)
    ensures Holds(next, w, used + {c.id}, Some(s))
  {}

  lemma {:induction false} Closes(db: Db, w: Watched, used: set<string>, s: State, c: Cycle)
    returns (closed: State, five: Db, back: MeasurementEvent, closing: MeasurementEvent)
    requires Holds(db, w, used, Some(s)) && Usable(w, c) && c.id !in used && c.band == WithinTolerance
    requires Belongs(s, w) && s.lifecycle == Open && s.lastFinalizedCycleId in used && s.lastFinalizedAt < c.at
    ensures Stands(closed, w, Resolved, c) && five == Staged(db, w, c, closed)
    ensures Coherent(BatchOf(db, w, c)) && !CycleConflicts(db, BatchOf(db, w, c).cycle)
    ensures back.kind == Reconverged && back.discrepancyId == w.id && back.cycleId == c.id && back.id == EventId(w.id, c.id, Reconverged)
    ensures closing.kind == ResolvedEvent && closing.discrepancyId == w.id && closing.cycleId == c.id
    ensures closing.id == EventId(w.id, c.id, ResolvedEvent)
    ensures InsertEvent(five, back) == Ok(five.(events := db.events + [StoredEvent(back, None)]))
    ensures !HasEvent(db.events + [StoredEvent(back, None)], closing.id)
    ensures Persist(db, BatchOf(db, w, c)) == match InsertEvent(five.(events := db.events + [StoredEvent(back, None)]), closing)
                                              case Err(failure) => Err(failure)
                                              case Ok(next) => Ok((next, Inserted))
  {
    closed, back, closing := ClosingAdvances(s, w, c);
    Persists(db, w, used, Some(s), c, Advanced(Some(closed), [back, closing], None), closed);
    five := Staged(db, w, c, closed);
    TwoInserted(five, back, closing);
    NewEvent(db.events, w, used, c.id, Reconverged);
    NewEvent(db.events + [StoredEvent(back, None)], w, used, c.id, ResolvedEvent);
  }

  // ---- Four cycles -------------------------------------------------------------------------------

  /** Out of tolerance, back, out again and back, each cycle later than the one before and under its own identifier. */
  predicate TwoEpisodes(w: Watched, cycles: seq<Cycle>) {
    && |cycles| == 4 && (forall i | 0 <= i < 4 :: Usable(w, cycles[i]))
    && (forall i, j | 0 <= i < j < 4 :: cycles[i].id != cycles[j].id && cycles[i].at < cycles[j].at)
    && cycles[0].band != WithinTolerance && cycles[1].band == WithinTolerance
    && cycles[2].band != WithinTolerance && cycles[3].band == WithinTolerance
  }

  lemma {:induction false} OneMore(w: Watched, cycles: seq<Cycle>, n: nat)
    requires n < |cycles|
    ensures var db := Run(EMPTY, Batches(w, cycles, n));
      Run(EMPTY, Batches(w, cycles, n + 1)) == Take(db, BatchOf(db, w, cycles[n]))
  {
    assert Batches(w, cycles, n + 1) == Followed(Batches(w, cycles, n), w, cycles[n]);
  }

  lemma {:induction false} CoherentSoFar(w: Watched, cycles: seq<Cycle>, n: nat)
    requires n < |cycles| && (forall b | b in Batches(w, cycles, n) :: Coherent(b))
    requires Coherent(BatchOf(Run(EMPTY, Batches(w, cycles, n)), w, cycles[n]))
    ensures forall b | b in Batches(w, cycles, n + 1) :: Coherent(b)
  {}

  lemma {:induction false} FirstOpens(w: Watched, cycles: seq<Cycle>) returns (s: State, e: StoredEvent)
    requires TwoEpisodes(w, cycles)
    ensures var db := Run(EMPTY, Batches(w, cycles, 1));
      Holds(db, w, {cycles[0].id}, Some(s)) && Stands(s, w, Open, cycles[0]) && db.events == [e] && CycleStore.Opens(e, w.id)
      && e.target == None
    ensures forall b | b in Batches(w, cycles, 1) :: Coherent(b)
  {
    var next: Db;
    s, next, e := Opens(EMPTY, w, {}, None, cycles[0]);
    assert Batches(w, cycles, 0) == [] && Run(EMPTY, []) == EMPTY;
    OneMore(w, cycles, 0);
    CoherentSoFar(w, cycles, 0);
    assert {} + {cycles[0].id} == {cycles[0].id};
  }

  lemma {:induction false} ClosingAccepted(mid: Db, e: StoredEvent, back: StoredEvent, closing: MeasurementEvent)
    requires mid.events == [e] + [back] && CycleStore.Opens(e, closing.discrepancyId) && back.event.kind == Reconverged
    requires e.target == None && back.target == None
    requires closing.kind == ResolvedEvent && !HasEvent(mid.events, closing.id) && closing.discrepancyId in mid.discrepancies
    ensures InsertEvent(mid, closing) == Ok(mid.(events := mid.events + [StoredEvent(closing, Some(e.event.id))]))
  {
    assert [e][..0] == [] && FirstOpening([e], closing.discrepancyId) == Some(e);
    FirstOpeningStays([e], back, closing.discrepancyId);
    assert mid.events[0] == e && mid.events[1] == back;
  }

  lemma {:induction false} ClosingHolds(db: Db, next: Db, w: Watched, used: set<string>, c: Cycle, s: State, back: StoredEvent,
                                        closing: StoredEvent)
    requires Named(db.events, w, used) && db.cycles.Keys == used && db.snapshots.Keys == used
    requires (forall id | id in used :: db.cycles[id].key == id && db.snapshots[id].cycleId == id)
    requires next == Staged(db, w, c, s).(events := db.events + [back] + [closing])
    requires back.event.cycleId == closing.event.cycleId == c.id && back.event.id == EventId(w.id, c.id, back.event.kind)
    requires closing.event.id == EventId(w.id, c.id, closing.event.kind)
    ensures Holds(next, w, used + {c.id}, Some(s))
  {
    assert Named(db.events + [back], w, used + {c.id});
  }

  lemma {:induction false} ClosesFirst(db: Db, w: Watched, used: set<string>, s: State, c: Cycle, e: StoredEvent)
    returns (closed: State, next: Db)
    requires Holds(db, w, used, Some(s)) && Usable(w, c) && c.id !in used && c.band == WithinTolerance
    requires Belongs(s, w) && s.lifecycle == Open && s.lastFinalizedCycleId in used && s.lastFinalizedAt < c.at
    requires db.events == [e] && CycleStore.Opens(e, w.id) && e.target == None
    ensures Persist(db, BatchOf(db, w, c)) == Ok((next, Inserted)) && Coherent(BatchOf(db, w, c))
    ensures Holds(next, w, used + {c.id}, Some(closed)) && Stands(closed, w, Resolved, c) && Closed(next.events, w.id)
  {
    var five, back, closing;
    closed, five, back, closing := Closes(db, w, used, s, c);
    var mid, stored := five.(events := db.events + [StoredEvent(back, None)]), StoredEvent(closing, Some(e.event.id));
    ClosingAccepted(mid, e, StoredEvent(back, None), closing);
    next := mid.(events := mid.events + [stored]);
    assert IsResolution(next.events[2], w.id);
    ClosingHolds(db, next, w, used, c, closed, StoredEvent(back, None), stored);
  }

  lemma {:induction false} FirstCloses(w: Watched, cycles: seq<Cycle>) returns (s: State)
    requires TwoEpisodes(w, cycles)
    ensures var db := Run(EMPTY, Batches(w, cycles, 2));
      Holds(db, w, {cycles[0].id, cycles[1].id}, Some(s)) && Stands(s, w, Resolved, cycles[1]) && Closed(db.events, w.id)
    ensures forall b | b in Batches(w, cycles, 2) :: Coherent(b)
  {
    var open, e := FirstOpens(w, cycles);
    var next: Db;
    s, next := ClosesFirst(Run(EMPTY, Batches(w, cycles, 1)), w, {cycles[0].id}, open, cycles[1], e);
    OneMore(w, cycles, 1);
    CoherentSoFar(w, cycles, 1);
    assert {cycles[0].id} + {cycles[1].id} == {cycles[0].id, cycles[1].id};
  }

  lemma {:induction false} StaysClosed(events: seq<StoredEvent>, e: StoredEvent, d: string)
    requires Closed(events, d)
    ensures Closed(events + [e], d)
  {
    var i :| 0 <= i < |events| && IsResolution(events[i], d);
    assert IsResolution((events + [e])[i], d);
  }

  lemma {:induction false} OpensAgain(w: Watched, cycles: seq<Cycle>) returns (s: State)
    requires TwoEpisodes(w, cycles)
    ensures var db := Run(EMPTY, Batches(w, cycles, 3));
      && Holds(db, w, {cycles[0].id, cycles[1].id, cycles[2].id}, Some(s)) && Stands(s, w, Open, cycles[2])
      && Closed(db.events, w.id)
    ensures forall b | b in Batches(w, cycles, 3) :: Coherent(b)
  {
    var closed := FirstCloses(w, cycles);
    var next;
    s, next := Reopens(Run(EMPTY, Batches(w, cycles, 2)), w, {cycles[0].id, cycles[1].id}, closed, cycles[2]);
    OneMore(w, cycles, 2);
    CoherentSoFar(w, cycles, 2);
    assert {cycles[0].id, cycles[1].id} + {cycles[2].id} == {cycles[0].id, cycles[1].id, cycles[2].id};
  }

  lemma {:induction false} Reopens(db: Db, w: Watched, used: set<string>, closed: State, c: Cycle) returns (s: State, next: Db)
    requires Holds(db, w, used, Some(closed)) && Usable(w, c) && c.id !in used && c.band != WithinTolerance
    requires Rested(Some(closed), w, c.at) && closed.lastFinalizedCycleId in used && Closed(db.events, w.id)
    ensures Persist(db, BatchOf(db, w, c)) == Ok((next, Inserted)) && Coherent(BatchOf(db, w, c))
    ensures Holds(next, w, used + {c.id}, Some(s)) && Stands(s, w, Open, c) && Closed(next.events, w.id)
  {
    var e;
    s, next, e := Opens(db, w, used, Some(closed), c);
    StaysClosed(db.events, e, w.id);
  }

  lemma {:induction false} ClosingRefused(batches: seq<Batch>, five: Db, back: MeasurementEvent, closing: MeasurementEvent)
    requires (forall b | b in batches :: Coherent(b)) && Closed(Run(EMPTY, batches).events, closing.discrepancyId)
    requires closing.kind == ResolvedEvent && back.kind == Reconverged
    ensures InsertEvent(five.(events := Run(EMPTY, batches).events + [StoredEvent(back, None)]), closing) == Err(UniqueViolated)
  {
    RunKeepsTargets(batches);
    TargetStaysTaken(Run(EMPTY, batches).events, StoredEvent(back, None), closing.discrepancyId);
  }

  lemma {:induction false} TargetStaysTaken(events: seq<StoredEvent>, back: StoredEvent, d: string)
    requires Targeted(events) && Closed(events, d) && back.event.kind == Reconverged
    ensures var first := FirstOpening(events + [back], d);
      first.Some? && TargetTaken(events + [back], Some(first.value.event.id), ResolvedEvent)
  {
    var i :| 0 <= i < |events| && IsResolution(events[i], d);
    assert TargetsFirstOpening(events, events[i]);
    FirstOpeningStays(events, back, d);
    assert (events + [back])[i] == events[i];
  }

  /**
   * For every discrepancy and any two episodes of it: the first three cycles are inserted, and the fourth, which closes the
   * second episode under a new key, throws because the target of its closing event is taken.
   */
  lemma {:induction false} SecondClosingThrows(w: Watched, cycles: seq<Cycle>)
    requires TwoEpisodes(w, cycles)
    ensures var db := Run(EMPTY, Batches(w, cycles, 3));
      && db.cycles.Keys == {cycles[0].id, cycles[1].id, cycles[2].id}
      && w.id in db.discrepancies && db.discrepancies[w.id].state.lifecycle == Open
      && !CycleConflicts(db, Row(w, cycles[3]))
      && Persist(db, BatchOf(db, w, cycles[3])) == Err(UniqueViolated)
  {
    var s := OpensAgain(w, cycles);
    var db := Run(EMPTY, Batches(w, cycles, 3));
    var closed, five, back, closing := Closes(db, w, {cycles[0].id, cycles[1].id, cycles[2].id}, s, cycles[3]);
    ClosingRefused(Batches(w, cycles, 3), five, back, closing);
  }

  /** There are such cycles. */
  lemma {:induction false} TwoEpisodesExist(w: Watched)
    requires Identifier(w.id) && Identifier(w.sourceId) && Identifier(w.version) && |w.version| <= 100
    ensures TwoEpisodes(w, [Cycle("c1", 1, AboveInfo), Cycle("c2", 2, WithinTolerance), Cycle("c3", 3, InfoBand),
                            Cycle("c4", 4, WithinTolerance)])
  {
    assert Identifier("c1") && Identifier("c2") && Identifier("c3") && Identifier("c4");
  }
}
