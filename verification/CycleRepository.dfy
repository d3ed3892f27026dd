/** The persistence repository as the program runs it: tables updated in place, and put back when the transaction throws. */
module CycleRepository {
  import opened Outcomes
  import opened Discrepancy
  import opened CycleStore

  class Repository {
    var cycles: map<string, CycleRow>
    var readings: map<string, StoredReading>
    var snapshots: map<string, CycleStore.Snapshot>
    var published: seq<string>
    var contributors: map<(string, string), string>
    var health: map<string, Health>
    var discrepancies: map<string, Stored>
    var events: seq<StoredEvent>

    function Contents(): Db
      reads this
    {
      Db(cycles, readings, snapshots, published, contributors, health, discrepancies, events)
    }

    constructor ()
      ensures Contents() == CycleStore.EMPTY
    {
      cycles, readings, snapshots, published := map[], map[], map[], [];
      contributors, health, discrepancies, events := map[], map[], map[], [];
    }

    method Restore(db: Db)
      modifies this
      ensures Contents() == db
    {
      cycles, readings, snapshots, published := db.cycles, db.readings, db.snapshots, db.published;
      contributors, health, discrepancies, events := db.contributors, db.health, db.discrepancies, db.events;
    }

    method UpsertSourceHealth(records: seq<Health>) returns (thrown: Option<Failure>)
      modifies this`health
      ensures match UpsertHealth(old(Contents()), records)
              case Ok(next) => thrown == None && Contents() == next
              case Err(failure) => thrown == Some(failure)
    {
      var start := Contents();
      for i := 0 to |records|
        invariant UpsertHealth(start, records[..i]) == Ok(Contents())
      {
        assert records[..i + 1][..i] == records[..i];
        var h := records[i];
        if h.failures < 0 || h.failures > SAFE_INTEGER_MAX {
          HealthFailureStays(start, records, i + 1);
          return Some(BadFailureCount);
        }
        health := Fresher(health, h);
      }
      assert records[..|records|] == records;
      thrown := None;
    }

    method UpsertDiscrepancy(s: State, c: CycleRow) returns (thrown: Option<Failure>)
      modifies this`discrepancies
      ensures match UpsertState(old(Contents()), s, c)
              case Ok(next) => thrown == None && Contents() == next
              case Err(failure) => thrown == Some(failure)
    {
      var id := s.discrepancyId;
      if id in discrepancies && !MayReplace(discrepancies[id], s, c) { return Some(StaleState); }
      var row := if id in discrepancies then Replaced(discrepancies[id], s) else Stored(s, c.metric, c.subject);
      if !RowTimesInOrder(row.state) { return Some(CheckViolated); }
      if OpenTaken(Contents(), id, row) { return Some(UniqueViolated); }
      discrepancies := discrepancies[id := row];
      thrown := None;
    }

    method UpsertDiscrepancies(states: seq<State>, c: CycleRow) returns (thrown: Option<Failure>)
      modifies this`discrepancies
      ensures match UpsertStates(old(Contents()), states, c)
              case Ok(next) => thrown == None && Contents() == next
              case Err(failure) => thrown == Some(failure)
    {
      var start := Contents();
      for i := 0 to |states|
        invariant UpsertStates(start, states[..i], c) == Ok(Contents())
      {
        assert states[..i + 1][..i] == states[..i];
        if states[i].lastFinalizedCycleId == c.id {
          thrown := UpsertDiscrepancy(states[i], c);
          if thrown.Some? {
            StateFailureStays(start, states, i + 1, c);
            return;
          }
        }
      }
      assert states[..|states|] == states;
      thrown := None;
    }

    method InsertMeasurementEvent(e: MeasurementEvent) returns (thrown: Option<Failure>)
      modifies this`events
      ensures match InsertEvent(old(Contents()), e)
              case Ok(next) => thrown == None && Contents() == next
              case Err(failure) => thrown == Some(failure)
    {
      var target: Option<string> := None;
      if e.kind == ResolvedEvent {
        var opening := FirstOpening(events, e.discrepancyId);
        if opening.None? { return Some(NoOpening); }
        target := Some(opening.value.event.id);
      }
      if HasEvent(events, e.id) || TargetTaken(events, target, e.kind) { return Some(UniqueViolated); }
      if e.discrepancyId !in discrepancies { return Some(NoDiscrepancy); }
      events := events + [StoredEvent(e, target)];
      thrown := None;
    }

    method InsertMeasurementEvents(batch: seq<MeasurementEvent>) returns (thrown: Option<Failure>)
      modifies this`events
      ensures match InsertEvents(old(Contents()), batch)
              case Ok(next) => thrown == None && Contents() == next
              case Err(failure) => thrown == Some(failure)
    {
      var start := Contents();
      for i := 0 to |batch|
        invariant InsertEvents(start, batch[..i]) == Ok(Contents())
      {
        assert batch[..i + 1][..i] == batch[..i];
        thrown := InsertMeasurementEvent(batch[i]);
        if thrown.Some? {
          EventFailureStays(start, batch, i + 1);
          return;
        }
      }
      assert batch[..|batch|] == batch;
      thrown := None;
    }

    /** Runs a stage that is one statement. */
    method Execute(stage: Outcome) returns (thrown: Option<Failure>)
      modifies this
      ensures match stage
              case Ok(next) => thrown == None && Contents() == next
              case Err(failure) => thrown == Some(failure)
    {
      if stage.Err? { return Some(stage.error); }
      Restore(stage.value);
      thrown := None;
    }

    /** Everything the transaction does once the cycle row is in; a failure leaves the tables to be put back. */
    method InsertCycleContents(b: Batch) returns (thrown: Option<Failure>)
      requires b.cycle.id !in cycles
      modifies this
      ensures match InsertRest(old(Contents()), b)
              case Ok(next) => thrown == None && Contents() == next
              case Err(failure) => thrown == Some(failure)
    {
      cycles := cycles[b.cycle.id := b.cycle];
      thrown := Execute(InsertReadings(Contents(), b.readings, b.cycle.id));
      if thrown.Some? { return; }
      thrown := UpsertSourceHealth(b.health);
      if thrown.Some? { return; }
      thrown := Execute(InsertSnapshot(Contents(), b.snapshot, b.isPublic));
      if thrown.Some? { return; }
      thrown := Execute(InsertContributions(Contents(), b.snapshot, b.readings, |b.snapshot.contributions|));
      if thrown.Some? { return; }
      thrown := UpsertDiscrepancies(b.states, b.cycle);
      if thrown.Some? { return; }
      thrown := InsertMeasurementEvents(b.events);
    }

    method PersistCompletedCycle(b: Batch) returns (r: Result<Status, Failure>)
      modifies this
      ensures match Persist(old(Contents()), b)
              case Ok(done) => r == Ok(done.1) && Contents() == done.0
              case Err(failure) => r == Err(failure) && Contents() == old(Contents())
    {
      var saved := Contents();
      if Precheck(b).Some? { return Err(Precheck(b).value); }
      if !TimesInOrder(b.cycle) { return Err(CheckViolated); }
      if CycleConflicts(saved, b.cycle) {
        if !HasCycleKey(saved, b.cycle.key) { return Err(CycleIdTaken); }
        if exists id :: id in cycles && cycles[id].key == b.cycle.key && SameIdentity(cycles[id], b.cycle) {
          return Ok(Duplicate);
        }
        return Err(KeyReused);
      }
      var thrown := InsertCycleContents(b);
      if thrown.Some? {
        Restore(saved);
        return Err(thrown.value);
      }
      r := Ok(Inserted);
    }
  }

  lemma {:induction false} HealthFailureStays(db: Db, records: seq<Health>, n: nat)
    requires n <= |records| && UpsertHealth(db, records[..n]).Err?
    ensures UpsertHealth(db, records) == UpsertHealth(db, records[..n])
    decreases |records| - n
  {
    if n == |records| {
      assert records[..n] == records;
    } else {
      assert records[..n + 1][..n] == records[..n];
      HealthFailureStays(db, records, n + 1);
    }
  }

  lemma {:induction false} StateFailureStays(db: Db, states: seq<State>, n: nat, c: CycleRow)
    requires n <= |states| && UpsertStates(db, states[..n], c).Err?
    ensures UpsertStates(db, states, c) == UpsertStates(db, states[..n], c)
    decreases |states| - n
  {
    if n == |states| {
      assert states[..n] == states;
    } else {
      assert states[..n + 1][..n] == states[..n];
      StateFailureStays(db, states, n + 1, c);
    }
  }

  lemma {:induction false} EventFailureStays(db: Db, events: seq<MeasurementEvent>, n: nat)
    requires n <= |events| && InsertEvents(db, events[..n]).Err?
    ensures InsertEvents(db, events) == InsertEvents(db, events[..n])
    decreases |events| - n
  {
    if n == |events| {
      assert events[..n] == events;
    } else {
      assert events[..n + 1][..n] == events[..n];
      EventFailureStays(db, events, n + 1);
    }
  }
}
