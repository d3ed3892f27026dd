/** What an inserted cycle stores row by row, and what is unique and referenced among the rows of any run. */
module CycleRows {
  import opened Outcomes
  import opened Discrepancy
  import opened CycleStore
  import opened CycleLaws

  // ---- Readings ----------------------------------------------------------------------------------

  /** Every stored reading is filed under its id; no observation, and no source of a cycle, has two. */
  ghost predicate ReadingsUnique(readings: map<string, StoredReading>) {
    && (forall x | x in readings :: readings[x].reading.id == x)
    && (forall x, y | x in readings && y in readings && x != y ::
          && readings[x].reading.observationId != readings[y].reading.observationId
          && (readings[x].cycleId != readings[y].cycleId || readings[x].reading.sourceId != readings[y].reading.sourceId))
  }

  /** The readings of a cycle are added, and nothing that was stored is lost. */
  ghost predicate Adds(before: map<string, StoredReading>, after: map<string, StoredReading>, readings: seq<Reading>, cycleId: string) {
    && (forall r | r in readings :: r.id !in before && r.id in after && after[r.id] == StoredReading(r, cycleId))
    && (forall x | x in before :: x in after && after[x] == before[x])
    && (forall x | x in after :: x in before || exists r :: r in readings && r.id == x)
  }

  lemma {:induction false} ReadingsAdded(db: Db, readings: seq<Reading>, cycleId: string)
    requires InsertReadings(db, readings, cycleId).Ok?
    ensures Adds(db.readings, InsertReadings(db, readings, cycleId).value.readings, readings, cycleId)
  {
    if readings != [] {
      var prefix, last := readings[..|readings| - 1], readings[|readings| - 1];
      ReadingsAdded(db, prefix, cycleId);
      OneAdded(db.readings, InsertReadings(db, prefix, cycleId).value.readings, prefix, last, cycleId);
      assert readings == prefix + [last];
    }
  }

  lemma {:induction false} OneAdded(before: map<string, StoredReading>, mid: map<string, StoredReading>, readings: seq<Reading>,
                                    last: Reading, cycleId: string)
    requires Adds(before, mid, readings, cycleId) && last.id !in mid
    ensures Adds(before, mid[last.id := StoredReading(last, cycleId)], readings + [last], cycleId)
  {
    var after := mid[last.id := StoredReading(last, cycleId)];
    forall x | x in after ensures x in before || exists r :: r in readings + [last] && r.id == x {
      if x == last.id {
        assert last in readings + [last];
      } else if x !in before {
        var r :| r in readings && r.id == x;
        assert r in readings + [last];
      }
    }
  }

  lemma {:induction false} ReadingsStayUnique(db: Db, readings: seq<Reading>, cycleId: string)
    requires ReadingsUnique(db.readings) && InsertReadings(db, readings, cycleId).Ok?
    ensures ReadingsUnique(InsertReadings(db, readings, cycleId).value.readings)
  {
    if readings != [] { ReadingsStayUnique(db, readings[..|readings| - 1], cycleId); }
  }

  // ---- Contributions -----------------------------------------------------------------------------

  lemma {:induction false} ReadingFound(readings: seq<Reading>, observationId: string)
    requires ReadingOf(readings, observationId).Some?
    ensures ReadingOf(readings, observationId).value in readings
    ensures ReadingOf(readings, observationId).value.observationId == observationId
  {
    if readings[|readings| - 1].observationId != observationId { ReadingFound(readings[..|readings| - 1], observationId); }
  }

  /** The contribution is recorded for a reading of its observation and source. */
  ghost predicate Recorded(contributors: map<(string, string), string>, snapshotId: string, c: Contribution, readings: seq<Reading>) {
    exists r :: r in readings && r.observationId == c.observationId && r.sourceId == c.sourceId
                && (snapshotId, r.id) in contributors && contributors[(snapshotId, r.id)] == c.sourceId
  }

  /** The first `n` contributions of a snapshot are recorded. */
  ghost predicate AllRecorded(after: map<(string, string), string>, s: CycleStore.Snapshot, readings: seq<Reading>, n: nat)
    requires n <= |s.contributions|
  {
    forall i | 0 <= i < n :: Recorded(after, s.id, s.contributions[i], readings)
  }

  predicate Kept(before: map<(string, string), string>, after: map<(string, string), string>) {
    forall k | k in before :: k in after && after[k] == before[k]
  }

  /** Every new record comes from them. */
  ghost predicate AllExplained(before: map<(string, string), string>, after: map<(string, string), string>, s: CycleStore.Snapshot,
                               readings: seq<Reading>, n: nat)
    requires n <= |s.contributions|
  {
    forall k | k in after && k !in before :: k.0 == s.id && Explained(after[k], k.1, s, readings, n)
  }

  /** The contributions of a snapshot are recorded, nothing else is, and nothing that was recorded is lost. */
  ghost predicate Records(before: map<(string, string), string>, after: map<(string, string), string>, s: CycleStore.Snapshot,
                          readings: seq<Reading>)
  {
    && AllRecorded(after, s, readings, |s.contributions|) && Kept(before, after)
    && AllExplained(before, after, s, readings, |s.contributions|)
  }

  /** The record comes from one of the first `n` contributions. */
  ghost predicate Explained(sourceId: string, readingId: string, s: CycleStore.Snapshot, readings: seq<Reading>, n: nat)
    requires n <= |s.contributions|
  {
    exists i, r :: 0 <= i < n && r in readings && r.id == readingId && r.observationId == s.contributions[i].observationId
                   && r.sourceId == s.contributions[i].sourceId == sourceId
  }

  lemma {:induction false} StaysExplained(sourceId: string, readingId: string, s: CycleStore.Snapshot, readings: seq<Reading>, n: nat)
    requires n < |s.contributions| && Explained(sourceId, readingId, s, readings, n)
    ensures Explained(sourceId, readingId, s, readings, n + 1)
  {
    var i, r :| 0 <= i < n && r in readings && r.id == readingId && r.observationId == s.contributions[i].observationId
                && r.sourceId == s.contributions[i].sourceId == sourceId;
    assert i < n + 1;
  }

  lemma {:induction false} StaysRecorded(mid: map<(string, string), string>, after: map<(string, string), string>, snapshotId: string,
                                         c: Contribution, readings: seq<Reading>)
    requires Recorded(mid, snapshotId, c, readings) && forall k | k in mid :: k in after && after[k] == mid[k]
    ensures Recorded(after, snapshotId, c, readings)
  {
    var x :| x in readings && x.observationId == c.observationId && x.sourceId == c.sourceId
             && (snapshotId, x.id) in mid && mid[(snapshotId, x.id)] == c.sourceId;
    assert (snapshotId, x.id) in after && after[(snapshotId, x.id)] == c.sourceId;
  }

  lemma {:induction false} OneRecorded(mid: map<(string, string), string>, s: CycleStore.Snapshot, readings: seq<Reading>, n: nat,
                                       r: Reading)
    requires n < |s.contributions| && AllRecorded(mid, s, readings, n)
    requires r in readings && r.observationId == s.contributions[n].observationId && r.sourceId == s.contributions[n].sourceId
    requires (s.id, r.id) !in mid
    ensures AllRecorded(mid[(s.id, r.id) := r.sourceId], s, readings, n + 1)
  {
    var after := mid[(s.id, r.id) := r.sourceId];
    forall i | 0 <= i < n + 1 ensures Recorded(after, s.id, s.contributions[i], readings) {
      if i < n { StaysRecorded(mid, after, s.id, s.contributions[i], readings); } else { assert after[(s.id, r.id)] == r.sourceId; }
    }
  }

  /** What one contribution adds. */
  lemma {:induction false} NextContribution(db: Db, s: CycleStore.Snapshot, readings: seq<Reading>, n: nat) returns (r: Reading)
    requires n < |s.contributions| && InsertContributions(db, s, readings, n + 1).Ok?
    ensures InsertContributions(db, s, readings, n).Ok?
    ensures r in readings && r.observationId == s.contributions[n].observationId && r.sourceId == s.contributions[n].sourceId
    ensures var mid := InsertContributions(db, s, readings, n).value.contributors;
      (s.id, r.id) !in mid
      && InsertContributions(db, s, readings, n + 1).value.contributors == mid[(s.id, r.id) := r.sourceId]
  {
    r := ReadingOf(readings, s.contributions[n].observationId).value;
    ReadingFound(readings, s.contributions[n].observationId);
  }

  lemma {:induction false} ContributionsKept(db: Db, s: CycleStore.Snapshot, readings: seq<Reading>, n: nat)
    requires n <= |s.contributions| && InsertContributions(db, s, readings, n).Ok?
    ensures Kept(db.contributors, InsertContributions(db, s, readings, n).value.contributors)
  {
    if n > 0 {
      var r := NextContribution(db, s, readings, n - 1);
      ContributionsKept(db, s, readings, n - 1);
    }
  }

  lemma {:induction false} ContributionsRecorded(db: Db, s: CycleStore.Snapshot, readings: seq<Reading>, n: nat)
    requires n <= |s.contributions| && InsertContributions(db, s, readings, n).Ok?
    ensures AllRecorded(InsertContributions(db, s, readings, n).value.contributors, s, readings, n)
  {
    if n > 0 {
      var r := NextContribution(db, s, readings, n - 1);
      ContributionsRecorded(db, s, readings, n - 1);
      OneRecorded(InsertContributions(db, s, readings, n - 1).value.contributors, s, readings, n - 1, r);
    }
  }

  lemma {:induction false} ContributionExplained(db: Db, s: CycleStore.Snapshot, readings: seq<Reading>, n: nat, k: (string, string))
    requires n <= |s.contributions| && InsertContributions(db, s, readings, n).Ok?
    requires k in InsertContributions(db, s, readings, n).value.contributors && k !in db.contributors
    ensures k.0 == s.id && Explained(InsertContributions(db, s, readings, n).value.contributors[k], k.1, s, readings, n)
  {
    var r := NextContribution(db, s, readings, n - 1);
    if k == (s.id, r.id) {
      assert r.id == k.1 && r.sourceId == s.contributions[n - 1].sourceId;
    } else {
      ContributionExplained(db, s, readings, n - 1, k);
      StaysExplained(InsertContributions(db, s, readings, n - 1).value.contributors[k], k.1, s, readings, n - 1);
    }
  }

  lemma {:induction false} ContributionsExplained(db: Db, s: CycleStore.Snapshot, readings: seq<Reading>)
    requires InsertContributions(db, s, readings, |s.contributions|).Ok?
    ensures AllExplained(db.contributors, InsertContributions(db, s, readings, |s.contributions|).value.contributors, s, readings,
                         |s.contributions|)
  {
    var after := InsertContributions(db, s, readings, |s.contributions|).value.contributors;
    forall k | k in after && k !in db.contributors
      ensures k.0 == s.id && Explained(after[k], k.1, s, readings, |s.contributions|)
    {
      ContributionExplained(db, s, readings, |s.contributions|, k);
    }
  }

  /** In an inserted snapshot no reading and no source contributes twice. */
  ghost predicate OneEach(contributors: map<(string, string), string>) {
    forall k, l | k in contributors && l in contributors && k != l && k.0 == l.0 :: contributors[k] != contributors[l]
  }

  lemma {:induction false} ContributionsStayUnique(db: Db, s: CycleStore.Snapshot, readings: seq<Reading>, n: nat)
    requires n <= |s.contributions| && OneEach(db.contributors) && InsertContributions(db, s, readings, n).Ok?
    ensures OneEach(InsertContributions(db, s, readings, n).value.contributors)
  {
    if n > 0 { ContributionsStayUnique(db, s, readings, n - 1); }
  }

  // ---- Discrepancies -----------------------------------------------------------------------------

  /** The last, and the first, of the states of a discrepancy that this cycle finalized. */
  function LastFinal(states: seq<State>, cycleId: string, id: string): Option<State> {
    if states == [] then None
    else
      var s := states[|states| - 1];
      if s.discrepancyId == id && s.lastFinalizedCycleId == cycleId then Some(s) else LastFinal(states[..|states| - 1], cycleId, id)
  }

  function FirstFinal(states: seq<State>, cycleId: string, id: string): Option<State> {
    if states == [] then None
    else if FirstFinal(states[..|states| - 1], cycleId, id).Some? then FirstFinal(states[..|states| - 1], cycleId, id)
    else
      var s := states[|states| - 1];
      if s.discrepancyId == id && s.lastFinalizedCycleId == cycleId then Some(s) else None
  }

  /** What an insertion makes of the row of a discrepancy. */
  ghost predicate Written(before: map<string, Stored>, after: map<string, Stored>, states: seq<State>, c: CycleRow, id: string) {
    match LastFinal(states, c.id, id)
    case None => (id in after <==> id in before) && (id in before ==> after[id] == before[id])
    case Some(s) =>
      && FirstFinal(states, c.id, id).Some? && id in after && after[id].metric == c.metric && after[id].subject == c.subject
      && after[id].state == s.(firstObservedAt := if id in before then before[id].state.firstObservedAt
                                                  else FirstFinal(states, c.id, id).value.firstObservedAt)
  }

  lemma {:induction false} StatesWritten(db: Db, states: seq<State>, c: CycleRow, id: string)
    requires UpsertStates(db, states, c).Ok?
    ensures Written(db.discrepancies, UpsertStates(db, states, c).value.discrepancies, states, c, id)
  {
    if states != [] {
      var prefix, s := states[..|states| - 1], states[|states| - 1];
      StatesWritten(db, prefix, c, id);
      var mid := UpsertStates(db, prefix, c).value;
      NoneFinal(prefix, c.id, id);
      if s.lastFinalizedCycleId == c.id { OneWritten(mid, s, c, id); }
    }
  }

  lemma {:induction false} NoneFinal(states: seq<State>, cycleId: string, id: string)
    ensures LastFinal(states, cycleId, id).None? <==> FirstFinal(states, cycleId, id).None?
  {
    if states != [] { NoneFinal(states[..|states| - 1], cycleId, id); }
  }

  lemma {:induction false} OneWritten(db: Db, s: State, c: CycleRow, id: string)
    requires UpsertState(db, s, c).Ok?
    ensures var after := UpsertState(db, s, c).value.discrepancies; var x := s.discrepancyId;
      && (id != x ==> (id in after <==> id in db.discrepancies) && (id in after ==> after[id] == db.discrepancies[id]))
      && x in after && after[x].metric == c.metric && after[x].subject == c.subject
      && after[x].state == s.(firstObservedAt := if x in db.discrepancies then db.discrepancies[x].state.firstObservedAt
                                                 else s.firstObservedAt)
  {}

  /** A source has at most one open discrepancy for a metric and subject; the times of every row are in order. */
  ghost predicate OneOpen(rows: map<string, Stored>) {
    && (forall x | x in rows ::
          && rows[x].state.firstObservedAt <= rows[x].state.lastObservedAt <= rows[x].state.lastFinalizedAt
          && rows[x].state.firstObservedAt <= rows[x].state.publicationUpdatedAt)
    && (forall x, y | x in rows && y in rows && x != y && rows[x].state.lifecycle == Open && rows[y].state.lifecycle == Open ::
          rows[x].state.sourceId != rows[y].state.sourceId || rows[x].metric != rows[y].metric || rows[x].subject != rows[y].subject)
  }

  /** Another discrepancy of the source is open for the metric and subject. */
  ghost predicate OtherOpen(db: Db, s: State, c: CycleRow) {
    exists x :: x in db.discrepancies && x != s.discrepancyId && db.discrepancies[x].state.lifecycle == Open
      && db.discrepancies[x].state.sourceId == s.sourceId && db.discrepancies[x].metric == c.metric
      && db.discrepancies[x].subject == c.subject
  }

  /**
   * A state is written exactly when it is new or finalized later than the stored one of the same source, metric, subject,
   * version and attribution, its times are in order, and it is closed or no other discrepancy of the source is open.
   */
  lemma {:induction false} WrittenExactly(db: Db, s: State, c: CycleRow)
    ensures var id := s.discrepancyId;
      UpsertState(db, s, c).Ok? <==>
        && (id in db.discrepancies ==>
              var stored := db.discrepancies[id];
              && stored.state.lastFinalizedAt < s.lastFinalizedAt && stored.state.sourceId == s.sourceId
              && stored.metric == c.metric && stored.subject == c.subject
              && stored.state.version == s.version && stored.state.namedParty == s.namedParty)
        && (var first := if id in db.discrepancies then db.discrepancies[id].state.firstObservedAt else s.firstObservedAt;
            first <= s.lastObservedAt <= s.lastFinalizedAt && first <= s.publicationUpdatedAt)
        && (s.lifecycle == Open ==> !OtherOpen(db, s, c))
  {}

  lemma {:induction false} OneStaysOpen(db: Db, s: State, c: CycleRow)
    requires OneOpen(db.discrepancies) && UpsertState(db, s, c).Ok?
    ensures OneOpen(UpsertState(db, s, c).value.discrepancies)
  {}

  lemma {:induction false} StatesStayOpen(db: Db, states: seq<State>, c: CycleRow)
    requires OneOpen(db.discrepancies) && UpsertStates(db, states, c).Ok?
    ensures OneOpen(UpsertStates(db, states, c).value.discrepancies)
  {
    if states != [] {
      StatesStayOpen(db, states[..|states| - 1], c);
      if states[|states| - 1].lastFinalizedCycleId == c.id {
        OneStaysOpen(UpsertStates(db, states[..|states| - 1], c).value, states[|states| - 1], c);
      }
    }
  }

  // ---- One call ----------------------------------------------------------------------------------

  /** The stages of an insertion that the rows depend on. */
  lemma {:induction false} Stages(db: Db, b: Batch) returns (one: Db, three: Db, four: Db)
    requires InsertRest(db, b).Ok?
    ensures InsertReadings(db.(cycles := db.cycles[b.cycle.id := b.cycle]), b.readings, b.cycle.id) == Ok(one)
    ensures three.contributors == db.contributors
    ensures InsertContributions(three, b.snapshot, b.readings, |b.snapshot.contributions|) == Ok(four)
    ensures four.discrepancies == db.discrepancies && four.events == db.events && four.readings == one.readings
    ensures UpsertStates(four, b.states, b.cycle).Ok?
    ensures InsertRest(db, b) == InsertEvents(UpsertStates(four, b.states, b.cycle).value, b.events)
  {
    var zero := db.(cycles := db.cycles[b.cycle.id := b.cycle]);
    ReadingsShape(zero, b.readings, b.cycle.id);
    one := InsertReadings(zero, b.readings, b.cycle.id).value;
    HealthShape(one, b.health);
    var two := UpsertHealth(one, b.health).value;
    three := InsertSnapshot(two, b.snapshot, b.isPublic).value;
    ContributionsShape(three, b.snapshot, b.readings, |b.snapshot.contributions|);
    four := InsertContributions(three, b.snapshot, b.readings, |b.snapshot.contributions|).value;
  }

  /** The events of a cycle are appended in order. */
  ghost predicate Appends(before: seq<StoredEvent>, after: seq<StoredEvent>, events: seq<MeasurementEvent>) {
    && |after| == |before| + |events| && before <= after
    && forall i | 0 <= i < |events| :: after[|before| + i].event == events[i]
  }

  /**
   * An inserted cycle stores each of its readings under its id, records each contribution of its snapshot for one of them,
   * writes the last state it finalized of each discrepancy with the first observation kept, and appends its events; whatever
   * was stored before stays.
   */
  ghost predicate StoresRows(db: Db, b: Batch, next: Db) {
    && Adds(db.readings, next.readings, b.readings, b.cycle.id)
    && Records(db.contributors, next.contributors, b.snapshot, b.readings)
    && (forall id :: Written(db.discrepancies, next.discrepancies, b.states, b.cycle, id))
    && Appends(db.events, next.events, b.events)
  }

  lemma {:induction false} InsertedReadings(db: Db, b: Batch)
    requires InsertRest(db, b).Ok?
    ensures Adds(db.readings, InsertRest(db, b).value.readings, b.readings, b.cycle.id)
  {
    var one, three, four := Stages(db, b);
    ReadingsAdded(db.(cycles := db.cycles[b.cycle.id := b.cycle]), b.readings, b.cycle.id);
    LastStages(four, b);
  }

  lemma {:induction false} InsertedContributions(db: Db, b: Batch)
    requires InsertRest(db, b).Ok?
    ensures Records(db.contributors, InsertRest(db, b).value.contributors, b.snapshot, b.readings)
  {
    var one, three, four := Stages(db, b);
    ContributionsRecorded(three, b.snapshot, b.readings, |b.snapshot.contributions|);
    ContributionsKept(three, b.snapshot, b.readings, |b.snapshot.contributions|);
    ContributionsExplained(three, b.snapshot, b.readings);
    LastStages(four, b);
  }

  lemma {:induction false} InsertedStates(db: Db, b: Batch, id: string)
    requires InsertRest(db, b).Ok?
    ensures Written(db.discrepancies, InsertRest(db, b).value.discrepancies, b.states, b.cycle, id)
  {
    var one, three, four := Stages(db, b);
    StatesWritten(four, b.states, b.cycle, id);
    LastStages(four, b);
  }

  lemma {:induction false} InsertedEvents(db: Db, b: Batch)
    requires InsertRest(db, b).Ok?
    ensures Appends(db.events, InsertRest(db, b).value.events, b.events)
  {
    var one, three, four := Stages(db, b);
    EventsShape(UpsertStates(four, b.states, b.cycle).value, b.events);
    LastStages(four, b);
  }

  /** States and events touch their own tables only. */
  lemma {:induction false} LastStages(four: Db, b: Batch)
    requires UpsertStates(four, b.states, b.cycle).Ok? && InsertEvents(UpsertStates(four, b.states, b.cycle).value, b.events).Ok?
    ensures var five := UpsertStates(four, b.states, b.cycle).value; var next := InsertEvents(five, b.events).value;
      && five == four.(discrepancies := five.discrepancies) && next == five.(events := next.events)
  {
    StatesShape(four, b.states, b.cycle, "");
    EventsShape(UpsertStates(four, b.states, b.cycle).value, b.events);
  }

  lemma {:induction false} InsertedStoresRows(db: Db, b: Batch)
    requires Persist(db, b).Ok? && Persist(db, b).value.1 == Inserted
    ensures StoresRows(db, b, Persist(db, b).value.0)
  {
    InsertedIsChecked(db, b);
    RestStoresRows(db, b);
  }

  lemma {:induction false} RestStoresRows(db: Db, b: Batch)
    requires InsertRest(db, b).Ok?
    ensures StoresRows(db, b, InsertRest(db, b).value)
  {
    InsertedReadings(db, b);
    InsertedContributions(db, b);
    AllStatesInserted(db, b);
    InsertedEvents(db, b);
  }

  lemma {:induction false} AllStatesInserted(db: Db, b: Batch)
    requires InsertRest(db, b).Ok?
    ensures forall id :: Written(db.discrepancies, InsertRest(db, b).value.discrepancies, b.states, b.cycle, id)
  {
    var after := InsertRest(db, b).value.discrepancies;
    forall id ensures Written(db.discrepancies, after, b.states, b.cycle, id) { InsertedStates(db, b, id); }
  }

  /** What a call that does not throw before its transaction carries: matching parts, valid states, events of its states. */
  lemma {:induction false} CarriesItsParts(db: Db, b: Batch)
    requires Persist(db, b).Ok?
    ensures b.snapshot.cycleId == b.cycle.id && b.snapshot.metric == b.cycle.metric && b.snapshot.version == b.cycle.version
    ensures b.snapshot.asOf == b.cycle.completedAt && b.cycle.scheduledAt <= b.cycle.startedAt <= b.cycle.completedAt
    ensures forall s | s in b.states :: Valid(s)
    ensures forall e | e in b.events ::
              && e.cycleId == b.cycle.id && e.at == b.cycle.completedAt
              && exists s :: s in b.states && s.discrepancyId == e.discrepancyId && s.sourceId == e.sourceId && s.version == e.version
  {
    forall e | e in b.events
      ensures exists s :: s in b.states && s.discrepancyId == e.discrepancyId && s.sourceId == e.sourceId && s.version == e.version
    {
      assert EventMatches(e, b);
      StateFound(b.states, e.discrepancyId);
    }
  }

  lemma {:induction false} StateFound(states: seq<State>, id: string)
    requires StateOf(states, id).Some?
    ensures StateOf(states, id).value in states && StateOf(states, id).value.discrepancyId == id
  {
    if states[|states| - 1].discrepancyId != id { StateFound(states[..|states| - 1], id); }
  }

  // ---- Every run ---------------------------------------------------------------------------------

  ghost predicate Unique(db: Db) { ReadingsUnique(db.readings) && OneEach(db.contributors) && OneOpen(db.discrepancies) }

  lemma {:induction false} TakeKeepsUnique(db: Db, b: Batch)
    requires Unique(db)
    ensures Unique(Take(db, b))
  {
    if Persist(db, b).Ok? && Persist(db, b).value.1 == Inserted {
      var one, three, four := Stages(db, b);
      var five := UpsertStates(four, b.states, b.cycle).value;
      ReadingsStayUnique(db.(cycles := db.cycles[b.cycle.id := b.cycle]), b.readings, b.cycle.id);
      ContributionsStayUnique(three, b.snapshot, b.readings, |b.snapshot.contributions|);
      StatesStayOpen(four, b.states, b.cycle);
      StatesShape(four, b.states, b.cycle, "");
      EventsShape(five, b.events);
    }
  }

  /**
   * In every run no observation is stored twice, no source has two readings in a cycle or two contributions to a snapshot,
   * and at most one discrepancy is open for a source, metric and subject.
   */
  lemma {:induction false} RowsAreUnique(batches: seq<Batch>)
    ensures Unique(Run(EMPTY, batches))
  {
    if batches != [] {
      RowsAreUnique(batches[..|batches| - 1]);
      TakeKeepsUnique(Run(EMPTY, batches[..|batches| - 1]), batches[|batches| - 1]);
    }
  }

  /** A contribution is backed by a stored reading of its cycle and source. */
  ghost predicate Backed(db: Db, s: CycleStore.Snapshot, c: Contribution) {
    exists id :: id in db.readings && db.readings[id].cycleId == s.cycleId
      && db.readings[id].reading.observationId == c.observationId && db.readings[id].reading.sourceId == c.sourceId
      && (s.id, id) in db.contributors && db.contributors[(s.id, id)] == c.sourceId
  }

  ghost predicate SnapshotBacked(db: Db, key: string)
    requires key in db.snapshots
  {
    var s := db.snapshots[key];
    && s.id == key && s.cycleId in db.cycles
    && s.metric == db.cycles[s.cycleId].metric && s.version == db.cycles[s.cycleId].version
    && s.asOf == db.cycles[s.cycleId].completedAt && TimesInOrder(db.cycles[s.cycleId])
    && forall i | 0 <= i < |s.contributions| :: Backed(db, s, s.contributions[i])
  }

  predicate EventBacked(db: Db, e: MeasurementEvent) {
    e.cycleId in db.cycles && e.at == db.cycles[e.cycleId].completedAt && e.discrepancyId in db.discrepancies
  }

  ghost predicate References(db: Db) {
    && (forall s | s in db.snapshots :: SnapshotBacked(db, s))
    && (forall i | 0 <= i < |db.events| :: EventBacked(db, db.events[i].event))
    && (forall x | x in db.readings :: db.readings[x].cycleId in db.cycles)
  }

  lemma {:induction false} StaysBacked(db: Db, b: Batch, next: Db, s: CycleStore.Snapshot, c: Contribution)
    requires StoresRows(db, b, next) && Backed(db, s, c)
    ensures Backed(next, s, c)
  {
    var id :| id in db.readings && db.readings[id].cycleId == s.cycleId
      && db.readings[id].reading.observationId == c.observationId && db.readings[id].reading.sourceId == c.sourceId
      && (s.id, id) in db.contributors && db.contributors[(s.id, id)] == c.sourceId;
    assert next.readings[id] == db.readings[id] && next.contributors[(s.id, id)] == db.contributors[(s.id, id)];
  }

  lemma {:induction false} NewlyBacked(db: Db, b: Batch, next: Db, i: nat)
    requires StoresRows(db, b, next) && b.snapshot.cycleId == b.cycle.id && i < |b.snapshot.contributions|
    ensures Backed(next, b.snapshot, b.snapshot.contributions[i])
  {
    var s, c := b.snapshot, b.snapshot.contributions[i];
    assert Recorded(next.contributors, s.id, c, b.readings);
    var r :| r in b.readings && r.observationId == c.observationId && r.sourceId == c.sourceId
             && (s.id, r.id) in next.contributors && next.contributors[(s.id, r.id)] == c.sourceId;
    assert next.readings[r.id] == StoredReading(r, b.cycle.id);
  }

  lemma {:induction false} SnapshotsStayBacked(db: Db, b: Batch, next: Db)
    requires (forall s | s in db.snapshots :: SnapshotBacked(db, s)) && StoresRows(db, b, next)
    requires next.cycles == db.cycles[b.cycle.id := b.cycle] && next.snapshots == db.snapshots[b.snapshot.id := b.snapshot]
    requires b.cycle.id !in db.cycles && SnapshotMatches(b.snapshot, b.cycle) && TimesInOrder(b.cycle)
    ensures forall s | s in next.snapshots :: SnapshotBacked(next, s)
  {
    forall key | key in next.snapshots ensures SnapshotBacked(next, key) {
      if key == b.snapshot.id {
        forall i | 0 <= i < |b.snapshot.contributions| ensures Backed(next, b.snapshot, b.snapshot.contributions[i]) {
          NewlyBacked(db, b, next, i);
        }
      } else {
        assert SnapshotBacked(db, key);
        var s := db.snapshots[key];
        forall i | 0 <= i < |s.contributions| ensures Backed(next, s, s.contributions[i]) {
          StaysBacked(db, b, next, s, s.contributions[i]);
        }
      }
    }
  }

  lemma {:induction false} EventsStayBacked(db: Db, b: Batch, next: Db)
    requires (forall i | 0 <= i < |db.events| :: EventBacked(db, db.events[i].event)) && StoresRows(db, b, next)
    requires next.cycles == db.cycles[b.cycle.id := b.cycle] && b.cycle.id !in db.cycles
    requires forall id :: RowAdvances(db.discrepancies, next.discrepancies, id)
    requires forall e | e in b.events :: e.cycleId == b.cycle.id && e.at == b.cycle.completedAt && e.discrepancyId in next.discrepancies
    ensures forall i | 0 <= i < |next.events| :: EventBacked(next, next.events[i].event)
  {
    forall i | 0 <= i < |next.events| ensures EventBacked(next, next.events[i].event) {
      if i < |db.events| {
        assert next.events[i] == db.events[i] && EventBacked(db, db.events[i].event);
        assert RowAdvances(db.discrepancies, next.discrepancies, db.events[i].event.discrepancyId);
      } else {
        assert next.events[|db.events| + (i - |db.events|)].event == b.events[i - |db.events|];
        assert b.events[i - |db.events|] in b.events;
      }
    }
  }

  lemma {:induction false} EventsHaveRows(db: Db, events: seq<MeasurementEvent>)
    requires InsertEvents(db, events).Ok?
    ensures forall e | e in events :: e.discrepancyId in db.discrepancies
  {
    if events != [] {
      EventsHaveRows(db, events[..|events| - 1]);
      EventsShape(db, events[..|events| - 1]);
      assert events == events[..|events| - 1] + [events[|events| - 1]];
    }
  }

  lemma {:induction false} InsertedEventsHaveRows(db: Db, b: Batch)
    requires InsertRest(db, b).Ok?
    ensures forall e | e in b.events :: e.discrepancyId in InsertRest(db, b).value.discrepancies
  {
    var one, three, four := Stages(db, b);
    EventsHaveRows(UpsertStates(four, b.states, b.cycle).value, b.events);
    EventsShape(UpsertStates(four, b.states, b.cycle).value, b.events);
  }

  lemma {:induction false} InsertedIsChecked(db: Db, b: Batch)
    requires Persist(db, b).Ok? && Persist(db, b).value.1 == Inserted
    ensures InsertRest(db, b) == Ok(Take(db, b)) && !CycleConflicts(db, b.cycle) && SnapshotMatches(b.snapshot, b.cycle)
    ensures TimesInOrder(b.cycle) && forall e | e in b.events :: EventMatches(e, b)
  {}

  lemma {:induction false} TakeKeepsReferences(db: Db, b: Batch)
    requires References(db)
    ensures References(Take(db, b))
  {
    if Persist(db, b).Ok? && Persist(db, b).value.1 == Inserted {
      InsertedIsChecked(db, b);
      InsertedStoresRows(db, b);
      InsertionShape(db, b);
      InsertedEventsHaveRows(db, b);
      KeepsReferences(db, b, Take(db, b));
    }
  }

  lemma {:induction false} KeepsReferences(db: Db, b: Batch, next: Db)
    requires References(db) && StoresRows(db, b, next) && Inserts(db, b, next)
    requires b.cycle.id !in db.cycles && SnapshotMatches(b.snapshot, b.cycle) && TimesInOrder(b.cycle)
    requires forall e | e in b.events :: e.cycleId == b.cycle.id && e.at == b.cycle.completedAt && e.discrepancyId in next.discrepancies
    ensures References(next)
  {
    SnapshotsStayBacked(db, b, next);
    EventsStayBacked(db, b, next);
    forall x | x in next.readings ensures next.readings[x].cycleId in next.cycles {
      if x !in db.readings {
        var r :| r in b.readings && r.id == x;
      }
    }
  }

  /**
   * In every run each stored snapshot has the metric, version and time of its cycle, and each of its contributions is
   * recorded for a stored reading of that cycle and its source; each event belongs to a stored cycle, at its completion.
   */
  lemma {:induction false} RowsAreReferenced(batches: seq<Batch>)
    ensures References(Run(EMPTY, batches))
  {
    if batches != [] {
      RowsAreReferenced(batches[..|batches| - 1]);
      TakeKeepsReferences(Run(EMPTY, batches[..|batches| - 1]), batches[|batches| - 1]);
    }
  }
}
