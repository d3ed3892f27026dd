/** Closing events and their targets: a stored discrepancy can be resolved once in its life, even if it is opened again. */
module Resolutions {
  import opened Outcomes
  import opened TextOrder
  import opened Discrepancy
  import opened CycleStore
  import opened CycleLaws

  /**
   * What the events of one reconciliation look like: each belongs to a discrepancy that this cycle finalized, and no two
   * open the same one.
   */
  ghost predicate Coherent(b: Batch) {
    && (forall e | e in b.events :: Finalizes(b, e.discrepancyId))
    && (forall i, j | 0 <= i < j < |b.events| && b.events[i].kind == Opened && b.events[j].kind == Opened ::
          b.events[i].discrepancyId != b.events[j].discrepancyId)
  }

  predicate Finalizes(b: Batch, d: string) {
    var s := StateOf(b.states, d);
    s.Some? && s.value.lastFinalizedCycleId == b.cycle.id && s.value.lastFinalizedAt == b.cycle.completedAt
  }

  /** Events returned by the discrepancy machine have that form. */
  lemma {:induction false} AdvancedEventsAreCoherent(prior: Option<State>, d: string, sourceId: string, namedParty: bool,
                                                     version: string, cycle: Cycle)
    requires Advance(prior, d, sourceId, namedParty, version, cycle).Ok?
    ensures var a := Advance(prior, d, sourceId, namedParty, version, cycle).value;
      && (a.events != [] ==>
            a.state.Some? && a.state.value.lastFinalizedCycleId == cycle.id && a.state.value.lastFinalizedAt == cycle.at)
      && (forall e | e in a.events :: e.discrepancyId == a.state.value.discrepancyId && e.cycleId == cycle.id && e.at == cycle.at)
      && (forall i, j | 0 <= i < j < |a.events| :: a.events[i].kind != Opened || a.events[j].kind != Opened)
  {}

  // ---- The invariant -----------------------------------------------------------------------------

  predicate IsResolution(e: StoredEvent, d: string) { e.event.discrepancyId == d && e.event.kind == ResolvedEvent }

  /** No stored event is later than the last finalization of its discrepancy. */
  ghost predicate Dated(db: Db) {
    forall i | 0 <= i < |db.events| ::
      && db.events[i].event.discrepancyId in db.discrepancies
      && db.events[i].event.at <= db.discrepancies[db.events[i].event.discrepancyId].state.lastFinalizedAt
  }

  ghost predicate TargetsFirstOpening(events: seq<StoredEvent>, e: StoredEvent) {
    var first := FirstOpening(events, e.event.discrepancyId);
    first.Some? && e.target == Some(first.value.event.id)
  }

  /** Every resolution targets the first opening, and no discrepancy has two. */
  ghost predicate Targeted(events: seq<StoredEvent>) {
    && (forall i | 0 <= i < |events| && events[i].event.kind == ResolvedEvent :: TargetsFirstOpening(events, events[i]))
    && (forall i, j | 0 <= i < j < |events| && events[i].event.kind == ResolvedEvent && events[j].event.kind == ResolvedEvent ::
          events[i].event.discrepancyId != events[j].event.discrepancyId)
  }

  lemma {:induction false} FirstOpeningFound(events: seq<StoredEvent>, d: string)
    ensures FirstOpening(events, d).Some? ==>
              exists i :: 0 <= i < |events| && Opens(events[i], d) && FirstOpening(events, d).value == events[i]
  {
    if events != [] { FirstOpeningFound(events[..|events| - 1], d); }
  }

  /** The first opening comes no later than any other, and before those of its time by its identifier. */
  lemma {:induction false} FirstOpeningIsFirst(events: seq<StoredEvent>, d: string, i: nat)
    requires i < |events| && events[i].event.discrepancyId == d && events[i].event.kind == Opened
    ensures FirstOpening(events, d).Some?
    ensures var first := FirstOpening(events, d).value.event;
      first.at < events[i].event.at || (first.at == events[i].event.at && AtMost(first.id, events[i].event.id))
  {
    var n := |events| - 1;
    if i < n { FirstOpeningIsFirst(events[..n], d, i); }
    var earlier, last := FirstOpening(events[..n], d), events[n];
    if i < n && Opens(last, d) && Before(last.event, earlier.value.event) {
      if last.event.at == earlier.value.event.at == events[i].event.at && earlier.value.event.id != events[i].event.id {
        Transitive(last.event.id, earlier.value.event.id, events[i].event.id);
      }
    } else if i == n && earlier.Some? {
      Trichotomy(last.event.id, earlier.value.event.id);
    }
  }

  /** Appending an event leaves the first opening of a discrepancy, unless it opens that one no later. */
  lemma {:induction false} FirstOpeningStays(events: seq<StoredEvent>, e: StoredEvent, d: string)
    requires FirstOpening(events, d).Some?
    requires Opens(e, d) ==> forall i | 0 <= i < |events| && Opens(events[i], d) :: events[i].event.at < e.event.at
    ensures FirstOpening(events + [e], d) == FirstOpening(events, d)
  {
    assert (events + [e])[..|events|] == events;
    FirstOpeningFound(events, d);
  }

  lemma {:induction false} AppendTargeted(events: seq<StoredEvent>, e: StoredEvent)
    requires Targeted(events)
    requires e.event.kind == ResolvedEvent ==> TargetsFirstOpening(events, e) && !TargetTaken(events, e.target, ResolvedEvent)
    requires forall i | 0 <= i < |events| && Opens(e, e.event.discrepancyId) && Opens(events[i], e.event.discrepancyId) ::
               events[i].event.at < e.event.at
    ensures Targeted(events + [e])
  {
    var more := events + [e];
    forall i | 0 <= i < |more| && more[i].event.kind == ResolvedEvent ensures TargetsFirstOpening(more, more[i]) {
      assert i < |events| ==> TargetsFirstOpening(events, events[i]);
      FirstOpeningStays(events, e, more[i].event.discrepancyId);
    }
    if e.event.kind == ResolvedEvent {
      forall i | 0 <= i < |events| && events[i].event.kind == ResolvedEvent
        ensures events[i].event.discrepancyId != e.event.discrepancyId
      {
        assert TargetsFirstOpening(events, events[i]);
      }
    }
  }

  // ---- One insertion keeps it --------------------------------------------------------------------

  /** The openings stored before the batch lie before its completion. */
  ghost predicate Earlier(events: seq<StoredEvent>, b: Batch) {
    forall i | 0 <= i < |events| && Finalizes(b, events[i].event.discrepancyId) :: events[i].event.at < b.cycle.completedAt
  }

  lemma {:induction false} InsertEventsTargeted(db: Db, b: Batch, n: nat)
    requires n <= |b.events| && Coherent(b) && (forall e | e in b.events :: e.at == b.cycle.completedAt)
    requires Targeted(db.events) && Earlier(db.events, b) && InsertEvents(db, b.events[..n]).Ok?
    ensures Targeted(InsertEvents(db, b.events[..n]).value.events)
  {
    if n > 0 {
      assert b.events[..n][..n - 1] == b.events[..n - 1];
      InsertEventsTargeted(db, b, n - 1);
      var mid, e := InsertEvents(db, b.events[..n - 1]).value, b.events[n - 1];
      EventsShape(db, b.events[..n - 1]);
      var stored := StoredEvent(e, if e.kind == ResolvedEvent then Some(FirstOpening(mid.events, e.discrepancyId).value.event.id) else None);
      assert e in b.events;
      if e.kind == Opened {
        forall k | |db.events| <= k < |mid.events| ensures !Opens(mid.events[k], e.discrepancyId) {
          assert mid.events[k].event == b.events[k - |db.events|];
        }
      }
      AppendTargeted(mid.events, stored);
    }
  }

  /** After its states are upserted, a discrepancy the batch finalizes carries its completion time. */
  lemma {:induction false} FinalizedRow(db: Db, states: seq<State>, c: CycleRow, d: string)
    requires UpsertStates(db, states, c).Ok? && StateOf(states, d).Some?
    requires StateOf(states, d).value.lastFinalizedCycleId == c.id
    ensures var next := UpsertStates(db, states, c).value;
      && d in next.discrepancies && next.discrepancies[d].state.lastFinalizedAt == StateOf(states, d).value.lastFinalizedAt
      && (d in db.discrepancies ==> db.discrepancies[d].state.lastFinalizedAt < next.discrepancies[d].state.lastFinalizedAt)
  {
    var prefix, last := states[..|states| - 1], states[|states| - 1];
    var mid := UpsertStates(db, prefix, c).value;
    if last.discrepancyId == d {
      StatesShape(db, prefix, c, d);
    } else {
      FinalizedRow(db, prefix, c, d);
    }
  }

  lemma {:induction false} BatchIsLater(db: Db, b: Batch, d: string)
    requires Dated(db) && UpsertStates(db, b.states, b.cycle).Ok? && Finalizes(b, d)
    ensures forall i | 0 <= i < |db.events| && db.events[i].event.discrepancyId == d :: db.events[i].event.at < b.cycle.completedAt
    ensures var next := UpsertStates(db, b.states, b.cycle).value;
      d in next.discrepancies && next.discrepancies[d].state.lastFinalizedAt == b.cycle.completedAt
  {
    FinalizedRow(db, b.states, b.cycle, d);
  }

  lemma {:induction false} StagesDated(db: Db, mid: Db, next: Db, b: Batch)
    requires Dated(db) && UpsertStates(db, b.states, b.cycle) == Ok(mid) && InsertEvents(mid, b.events) == Ok(next)
    requires forall e | e in b.events :: e.at == b.cycle.completedAt && Finalizes(b, e.discrepancyId)
    ensures Dated(next)
  {
    StatesShape(db, b.states, b.cycle, "");
    EventsShape(mid, b.events);
    forall i | 0 <= i < |next.events| ensures
      && next.events[i].event.discrepancyId in next.discrepancies
      && next.events[i].event.at <= next.discrepancies[next.events[i].event.discrepancyId].state.lastFinalizedAt
    {
      if i < |db.events| {
        assert next.events[i] == db.events[i];
        StatesShape(db, b.states, b.cycle, db.events[i].event.discrepancyId);
      } else {
        assert next.events[i].event == b.events[i - |db.events|];
        assert next.events[i].event in b.events;
        BatchIsLater(db, b, next.events[i].event.discrepancyId);
      }
    }
  }

  lemma {:induction false} StagesKeep(db: Db, mid: Db, next: Db, b: Batch)
    requires Dated(db) && Targeted(db.events) && Coherent(b) && (forall e | e in b.events :: e.at == b.cycle.completedAt)
    requires UpsertStates(db, b.states, b.cycle) == Ok(mid) && InsertEvents(mid, b.events) == Ok(next)
    ensures Dated(next) && Targeted(next.events)
  {
    StatesShape(db, b.states, b.cycle, "");
    forall d | Finalizes(b, d)
      ensures forall i | 0 <= i < |db.events| && db.events[i].event.discrepancyId == d :: db.events[i].event.at < b.cycle.completedAt
    {
      BatchIsLater(db, b, d);
    }
    assert b.events[..|b.events|] == b.events;
    InsertEventsTargeted(mid, b, |b.events|);
    StagesDated(db, mid, next, b);
  }

  lemma {:induction false} TakeKeepsTargets(db: Db, b: Batch)
    requires Dated(db) && Targeted(db.events) && Coherent(b)
    ensures Dated(Take(db, b)) && Targeted(Take(db, b).events)
  {
    if Persist(db, b).Ok? && Persist(db, b).value.1 == Inserted {
      TakeShape(db, b);
      assert forall e | e in b.events :: EventMatches(e, b);
      var four := FirstStages(db, b);
      StagesKeep(four, UpsertStates(four, b.states, b.cycle).value, Take(db, b), b);
    }
  }

  lemma {:induction false} RunKeepsTargets(batches: seq<Batch>)
    requires forall b | b in batches :: Coherent(b)
    ensures Dated(Run(EMPTY, batches)) && Targeted(Run(EMPTY, batches).events)
  {
    if batches != [] {
      RunKeepsTargets(batches[..|batches| - 1]);
      TakeKeepsTargets(Run(EMPTY, batches[..|batches| - 1]), batches[|batches| - 1]);
    }
  }

  // ---- Identifiers of stored events --------------------------------------------------------------

  ghost predicate DistinctEvents(events: seq<StoredEvent>) {
    forall i, j | 0 <= i < j < |events| :: events[i].event.id != events[j].event.id
  }

  lemma {:induction false} InsertEventsDistinct(db: Db, events: seq<MeasurementEvent>)
    requires DistinctEvents(db.events) && InsertEvents(db, events).Ok?
    ensures DistinctEvents(InsertEvents(db, events).value.events)
  {
    if events != [] {
      InsertEventsDistinct(db, events[..|events| - 1]);
      var mid := InsertEvents(db, events[..|events| - 1]).value;
      assert !HasEvent(mid.events, events[|events| - 1].id);
    }
  }

  lemma {:induction false} RunKeepsDistinct(batches: seq<Batch>)
    ensures DistinctEvents(Run(EMPTY, batches).events)
  {
    if batches != [] {
      var db, b := Run(EMPTY, batches[..|batches| - 1]), batches[|batches| - 1];
      RunKeepsDistinct(batches[..|batches| - 1]);
      if Persist(db, b).Ok? && Persist(db, b).value.1 == Inserted {
        TakeShape(db, b);
        var four := FirstStages(db, b);
        StatesShape(four, b.states, b.cycle, "");
        InsertEventsDistinct(UpsertStates(four, b.states, b.cycle).value, b.events);
      }
    }
  }

  ghost predicate Closed(events: seq<StoredEvent>, d: string) { exists i :: 0 <= i < |events| && IsResolution(events[i], d) }

  /** The index on targets refuses a closing event exactly when its discrepancy was closed before. */
  lemma {:induction false} TargetTakenExactly(events: seq<StoredEvent>, d: string)
    requires Targeted(events) && DistinctEvents(events) && FirstOpening(events, d).Some?
    ensures TargetTaken(events, Some(FirstOpening(events, d).value.event.id), ResolvedEvent) <==> Closed(events, d)
  {
    var target := Some(FirstOpening(events, d).value.event.id);
    if i :| 0 <= i < |events| && IsResolution(events[i], d) {
      assert TargetsFirstOpening(events, events[i]);
      assert events[i].target == target;
    }
    if i :| 0 <= i < |events| && events[i].target == target && events[i].event.kind == ResolvedEvent {
      var x := events[i].event.discrepancyId;
      assert TargetsFirstOpening(events, events[i]);
      FirstOpeningFound(events, d);
      FirstOpeningFound(events, x);
      var k :| 0 <= k < |events| && Opens(events[k], d) && FirstOpening(events, d).value == events[k];
      var l :| 0 <= l < |events| && Opens(events[l], x) && FirstOpening(events, x).value == events[l];
      assert !(k < l) && !(l < k);
      assert IsResolution(events[i], d);
    }
  }

  // ---- Main results ------------------------------------------------------------------------------

  /** Over any run every closing event targets the first opening of its discrepancy, and there is at most one of them. */
  lemma {:induction false} ResolvedAtMostOnce(batches: seq<Batch>, i: nat, j: nat)
    requires forall b | b in batches :: Coherent(b)
    requires i < |Run(EMPTY, batches).events| && j < |Run(EMPTY, batches).events|
    requires var d := Run(EMPTY, batches).events[i].event.discrepancyId;
      IsResolution(Run(EMPTY, batches).events[i], d) && IsResolution(Run(EMPTY, batches).events[j], d)
    ensures i == j && TargetsFirstOpening(Run(EMPTY, batches).events, Run(EMPTY, batches).events[i])
  {
    RunKeepsTargets(batches);
  }

  /**
   * In every reachable store a closing event is inserted exactly when its identifier is new, its discrepancy is stored and
   * was opened, and was never closed before.
   */
  lemma {:induction false} ClosingInsertedExactly(batches: seq<Batch>, e: MeasurementEvent)
    requires (forall b | b in batches :: Coherent(b)) && e.kind == ResolvedEvent
    ensures var db := Run(EMPTY, batches);
      InsertEvent(db, e).Ok? <==>
        && !HasEvent(db.events, e.id) && e.discrepancyId in db.discrepancies
        && FirstOpening(db.events, e.discrepancyId).Some? && !Closed(db.events, e.discrepancyId)
  {
    var db := Run(EMPTY, batches);
    RunKeepsTargets(batches);
    RunKeepsDistinct(batches);
    if FirstOpening(db.events, e.discrepancyId).Some? { TargetTakenExactly(db.events, e.discrepancyId); }
  }

  /**
   * A discrepancy whose id is reused for a new episode cannot be closed again: the cycle that resolves it a second time
   * is never inserted, and with it neither its snapshot nor the measurements of its other sources.
   */
  lemma {:induction false} SecondResolutionNeverInserted(batches: seq<Batch>, b: Batch, e: MeasurementEvent, i: nat)
    requires (forall x | x in batches :: Coherent(x)) && Coherent(b)
    requires e in b.events && e.kind == ResolvedEvent
    requires i < |Run(EMPTY, batches).events| && IsResolution(Run(EMPTY, batches).events[i], e.discrepancyId)
    ensures Persist(Run(EMPTY, batches), b).Ok? ==> Persist(Run(EMPTY, batches), b).value.1 == Duplicate
  {
    var db := Run(EMPTY, batches);
    if Persist(db, b).Ok? && Persist(db, b).value.1 == Inserted {
      var all := batches + [b];
      assert all[..|batches|] == batches;
      var next := Run(EMPTY, all);
      assert next == Take(db, b);
      TakeShape(db, b);
      var k := EventIndex(db, b, e);
      assert next.events[i] == db.events[i];
      ResolvedAtMostOnce(all, i, k);
      assert false;
    }
  }

  lemma {:induction false} EventIndex(db: Db, b: Batch, e: MeasurementEvent) returns (k: nat)
    requires e in b.events && Persist(db, b).Ok? && Persist(db, b).value.1 == Inserted
    ensures |db.events| <= k < |Take(db, b).events| && Take(db, b).events[k].event == e
  {
    TakeShape(db, b);
    var four := FirstStages(db, b);
    StatesShape(four, b.states, b.cycle, "");
    EventsShape(UpsertStates(four, b.states, b.cycle).value, b.events);
    var n :| 0 <= n < |b.events| && b.events[n] == e;
    k := |db.events| + n;
  }

  /** The discrepancy machine does reopen under the same id and close again: the second closing event is the one refused. */
  lemma {:induction false} MachineResolvesAgain(s: State, reopening: Cycle, closing: Cycle)
    requires Valid(s) && s.lifecycle == Resolved && Identifier(s.version)
    requires Identifier(reopening.id) && Identifier(closing.id) && reopening.band == AboveInfo && closing.band == WithinTolerance
    requires s.lastFinalizedAt < reopening.at < closing.at
    requires reopening.id != s.lastFinalizedCycleId && closing.id != reopening.id
    ensures var first := Advance(Some(s), s.discrepancyId, s.sourceId, s.namedParty, s.version, reopening);
      && first.Ok? && first.value.state.Some? && first.value.events != [] && first.value.events[0].kind == Opened
      && var second := Advance(first.value.state, s.discrepancyId, s.sourceId, s.namedParty, s.version, closing);
         second.Ok? && |second.value.events| == 2 && second.value.events[1].kind == ResolvedEvent
         && second.value.events[1].discrepancyId == s.discrepancyId
  {}
}
