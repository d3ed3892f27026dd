/** What the store of completed cycles keeps over any sequence of competing or retried calls. */
module CycleLaws {
  import opened Outcomes
  import opened Discrepancy
  import opened CycleStore

  // ---- What each stage touches -------------------------------------------------------------------

  lemma {:induction false} ReadingsShape(db: Db, readings: seq<Reading>, cycleId: string)
    requires InsertReadings(db, readings, cycleId).Ok?
    ensures var next := InsertReadings(db, readings, cycleId).value; next == db.(readings := next.readings)
  {
    if readings != [] { ReadingsShape(db, readings[..|readings| - 1], cycleId); }
  }

  function HealthFold(health: map<string, Health>, records: seq<Health>): map<string, Health> {
    if records == [] then health else Fresher(HealthFold(health, records[..|records| - 1]), records[|records| - 1])
  }

  lemma {:induction false} HealthShape(db: Db, records: seq<Health>)
    requires UpsertHealth(db, records).Ok?
    ensures UpsertHealth(db, records).value == db.(health := HealthFold(db.health, records))
  {
    if records != [] { HealthShape(db, records[..|records| - 1]); }
  }

  lemma {:induction false} ContributionsShape(db: Db, s: CycleStore.Snapshot, readings: seq<Reading>, n: nat)
    requires n <= |s.contributions| && InsertContributions(db, s, readings, n).Ok?
    ensures var next := InsertContributions(db, s, readings, n).value; next == db.(contributors := next.contributors)
  {
    if n > 0 { ContributionsShape(db, s, readings, n - 1); }
  }

  /** A stored discrepancy keeps its identity and first observation, and changes only to a later finalization. */
  ghost predicate RowAdvances(before: map<string, Stored>, after: map<string, Stored>, id: string) {
    id in before ==>
      && id in after
      && after[id].metric == before[id].metric && after[id].subject == before[id].subject
      && after[id].state.sourceId == before[id].state.sourceId && after[id].state.version == before[id].state.version
      && after[id].state.namedParty == before[id].state.namedParty
      && after[id].state.firstObservedAt == before[id].state.firstObservedAt
      && (after[id] == before[id] || before[id].state.lastFinalizedAt < after[id].state.lastFinalizedAt)
  }

  lemma {:induction false} RowAdvancesTwice(a: map<string, Stored>, b: map<string, Stored>, c: map<string, Stored>, id: string)
    requires RowAdvances(a, b, id) && RowAdvances(b, c, id)
    ensures RowAdvances(a, c, id)
  {}

  lemma {:induction false} StatesShape(db: Db, states: seq<State>, c: CycleRow, id: string)
    requires UpsertStates(db, states, c).Ok?
    ensures var next := UpsertStates(db, states, c).value;
      && next == db.(discrepancies := next.discrepancies)
      && RowAdvances(db.discrepancies, next.discrepancies, id)
  {
    if states != [] {
      StatesShape(db, states[..|states| - 1], c, id);
      var mid := UpsertStates(db, states[..|states| - 1], c).value;
      var next := UpsertStates(db, states, c).value;
      StateShape(mid, states[|states| - 1], c, id);
      RowAdvancesTwice(db.discrepancies, mid.discrepancies, next.discrepancies, id);
    }
  }

  lemma {:induction false} StateShape(db: Db, s: State, c: CycleRow, id: string)
    ensures RowAdvances(db.discrepancies, db.discrepancies, id)
    ensures UpsertState(db, s, c).Ok? ==>
              && UpsertState(db, s, c).value == db.(discrepancies := UpsertState(db, s, c).value.discrepancies)
              && RowAdvances(db.discrepancies, UpsertState(db, s, c).value.discrepancies, id)
  {}

  lemma {:induction false} EventsShape(db: Db, events: seq<MeasurementEvent>)
    requires InsertEvents(db, events).Ok?
    ensures var next := InsertEvents(db, events).value;
      && next == db.(events := next.events)
      && |next.events| == |db.events| + |events| && db.events <= next.events
      && forall i | 0 <= i < |events| :: next.events[|db.events| + i].event == events[i]
  {
    if events != [] { EventsShape(db, events[..|events| - 1]); }
  }

  /** What an insertion does, table by table. */
  ghost predicate Inserts(db: Db, b: Batch, next: Db) {
    && next.cycles == db.cycles[b.cycle.id := b.cycle]
    && next.health == HealthFold(db.health, b.health)
    && !SnapshotTaken(db, b.snapshot) && next.snapshots == db.snapshots[b.snapshot.id := b.snapshot]
    && (if b.isPublic then b.snapshot.id !in db.published && next.published == db.published + [b.snapshot.id]
        else next.published == db.published)
    && (forall id :: RowAdvances(db.discrepancies, next.discrepancies, id))
    && db.events <= next.events
  }

  /** The tables once everything but discrepancies and events is in. */
  lemma {:induction false} FirstStages(db: Db, b: Batch) returns (four: Db)
    requires InsertRest(db, b).Ok?
    ensures four.cycles == db.cycles[b.cycle.id := b.cycle] && four.health == HealthFold(db.health, b.health)
    ensures !SnapshotTaken(db, b.snapshot) && four.snapshots == db.snapshots[b.snapshot.id := b.snapshot]
    ensures if b.isPublic then b.snapshot.id !in db.published && four.published == db.published + [b.snapshot.id]
            else four.published == db.published
    ensures four.discrepancies == db.discrepancies && four.events == db.events
    ensures UpsertStates(four, b.states, b.cycle).Ok?
    ensures InsertEvents(UpsertStates(four, b.states, b.cycle).value, b.events) == InsertRest(db, b)
  {
    var zero := db.(cycles := db.cycles[b.cycle.id := b.cycle]);
    ReadingsShape(zero, b.readings, b.cycle.id);
    var one := InsertReadings(zero, b.readings, b.cycle.id).value;
    HealthShape(one, b.health);
    var two := UpsertHealth(one, b.health).value;
    var three := InsertSnapshot(two, b.snapshot, b.isPublic).value;
    ContributionsShape(three, b.snapshot, b.readings, |b.snapshot.contributions|);
    four := InsertContributions(three, b.snapshot, b.readings, |b.snapshot.contributions|).value;
  }

  lemma {:induction false} InsertionShape(db: Db, b: Batch)
    requires InsertRest(db, b).Ok?
    ensures Inserts(db, b, InsertRest(db, b).value)
  {
    var four := FirstStages(db, b);
    forall id ensures RowAdvances(db.discrepancies, UpsertStates(four, b.states, b.cycle).value.discrepancies, id) {
      StatesShape(four, b.states, b.cycle, id);
    }
    StatesShape(four, b.states, b.cycle, "");
    EventsShape(UpsertStates(four, b.states, b.cycle).value, b.events);
  }

  /** A call that does not insert changes nothing; one that does inserts a cycle under a new id and a new key. */
  lemma {:induction false} TakeShape(db: Db, b: Batch)
    ensures || Take(db, b) == db
            || (!CycleConflicts(db, b.cycle) && SnapshotMatches(b.snapshot, b.cycle) && Inserts(db, b, Take(db, b)))
    ensures Persist(db, b).Ok? && Persist(db, b).value.1 == Inserted <==>
              Precheck(b).None? && TimesInOrder(b.cycle) && !CycleConflicts(db, b.cycle) && InsertRest(db, b).Ok?
  {
    if Persist(db, b).Ok? && Persist(db, b).value.1 == Inserted { InsertionShape(db, b); }
  }

  // ---- One cycle and one snapshot for each key ---------------------------------------------------

  ghost predicate Covered(db: Db, cycleId: string) {
    exists s :: s in db.snapshots && db.snapshots[s].cycleId == cycleId
  }

  ghost predicate CyclesSound(db: Db) {
    && (forall x | x in db.cycles :: db.cycles[x].id == x && Covered(db, x))
    && (forall x, y | x in db.cycles && y in db.cycles && db.cycles[x].key == db.cycles[y].key :: x == y)
  }

  ghost predicate SnapshotsSound(db: Db) {
    && (forall s | s in db.snapshots :: db.snapshots[s].cycleId in db.cycles)
    && (forall s, t | s in db.snapshots && t in db.snapshots && db.snapshots[s].cycleId == db.snapshots[t].cycleId :: s == t)
  }

  ghost predicate PublishedSound(db: Db) {
    && (forall i | 0 <= i < |db.published| :: db.published[i] in db.snapshots)
    && (forall i, j | 0 <= i < j < |db.published| :: db.published[i] != db.published[j])
  }

  ghost predicate Inv(db: Db) { CyclesSound(db) && SnapshotsSound(db) && PublishedSound(db) }

  lemma {:induction false} CyclesKept(db: Db, b: Batch, next: Db)
    requires CyclesSound(db) && !CycleConflicts(db, b.cycle) && b.snapshot.cycleId == b.cycle.id && b.snapshot.id !in db.snapshots
    requires next.cycles == db.cycles[b.cycle.id := b.cycle] && next.snapshots == db.snapshots[b.snapshot.id := b.snapshot]
    ensures CyclesSound(next)
  {
    forall x | x in next.cycles ensures next.cycles[x].id == x && Covered(next, x) {
      if x == b.cycle.id {
        assert next.snapshots[b.snapshot.id].cycleId == x;
      } else {
        assert Covered(db, x);
        var s :| s in db.snapshots && db.snapshots[s].cycleId == x;
        assert next.snapshots[s].cycleId == x;
      }
    }
  }

  lemma {:induction false} InsertionKeeps(db: Db, b: Batch, next: Db)
    requires Inv(db) && !CycleConflicts(db, b.cycle) && SnapshotMatches(b.snapshot, b.cycle) && Inserts(db, b, next)
    ensures Inv(next)
  {
    CyclesKept(db, b, next);
  }

  lemma {:induction false} RunKeeps(db: Db, batches: seq<Batch>)
    requires Inv(db)
    ensures Inv(Run(db, batches))
  {
    if batches != [] {
      var mid, b := Run(db, batches[..|batches| - 1]), batches[|batches| - 1];
      RunKeeps(db, batches[..|batches| - 1]);
      TakeShape(mid, b);
      if Take(mid, b) != mid { InsertionKeeps(mid, b, Take(mid, b)); }
    }
  }

  /** Whatever calls compete, a key owns at most one cycle, each cycle exactly one snapshot, announced at most once. */
  lemma {:induction false} ExactlyOnce(batches: seq<Batch>)
    ensures var db := Run(EMPTY, batches);
      && (forall x, y | x in db.cycles && y in db.cycles && db.cycles[x].key == db.cycles[y].key :: x == y)
      && (forall x | x in db.cycles :: exists s :: s in db.snapshots && db.snapshots[s].cycleId == x)
      && (forall s, t | s in db.snapshots && t in db.snapshots && db.snapshots[s].cycleId == db.snapshots[t].cycleId :: s == t)
      && (forall s | s in db.snapshots :: db.snapshots[s].cycleId in db.cycles)
      && (forall i, j | 0 <= i < j < |db.published| :: db.published[i] != db.published[j])
  {
    RunKeeps(EMPTY, batches);
    assert forall x | x in Run(EMPTY, batches).cycles :: Covered(Run(EMPTY, batches), x);
  }

  lemma {:induction false} CyclesStay(db: Db, batches: seq<Batch>, id: string)
    requires id in db.cycles
    ensures id in Run(db, batches).cycles && Run(db, batches).cycles[id] == db.cycles[id]
  {
    if batches != [] {
      CyclesStay(db, batches[..|batches| - 1], id);
      TakeShape(Run(db, batches[..|batches| - 1]), batches[|batches| - 1]);
    }
  }

  /** Retrying an inserted call, now or after any other calls, reports a duplicate and changes no table. */
  lemma {:induction false} RetryIsDuplicate(db: Db, b: Batch, later: seq<Batch>)
    requires Persist(db, b).Ok? && Persist(db, b).value.1 == Inserted
    ensures var now := Run(Take(db, b), later); Persist(now, b) == Ok((now, Duplicate))
  {
    TakeShape(db, b);
    InsertionShape(db, b);
    CyclesStay(Take(db, b), later, b.cycle.id);
    var now := Run(Take(db, b), later);
    assert now.cycles[b.cycle.id] == b.cycle;
  }

  /** A key that is taken is never inserted again: the call is a duplicate when the identity agrees, else it throws. */
  lemma {:induction false} OwnedKeyExactly(batches: seq<Batch>, b: Batch, id: string)
    requires Precheck(b).None? && TimesInOrder(b.cycle)
    requires id in Run(EMPTY, batches).cycles && Run(EMPTY, batches).cycles[id].key == b.cycle.key
    ensures var db := Run(EMPTY, batches);
      var stored := db.cycles[id];
      Persist(db, b) ==
        if stored.id == b.cycle.id && stored.metric == b.cycle.metric && stored.subject == b.cycle.subject
           && stored.version == b.cycle.version && stored.scheduledAt == b.cycle.scheduledAt
        then Ok((db, Duplicate)) else Err(KeyReused)
  {
    RunKeeps(EMPTY, batches);
  }

  // ---- Discrepancies only move to later finalizations --------------------------------------------

  /** Over any run a stored discrepancy keeps its identity, and every change of it carries a later finalization. */
  lemma {:induction false} FinalizationIncreases(db: Db, batches: seq<Batch>, id: string)
    requires id in db.discrepancies
    ensures RowAdvances(db.discrepancies, Run(db, batches).discrepancies, id)
  {
    if batches != [] {
      var mid := Run(db, batches[..|batches| - 1]);
      FinalizationIncreases(db, batches[..|batches| - 1], id);
      TakeShape(mid, batches[|batches| - 1]);
      RowAdvancesTwice(db.discrepancies, mid.discrepancies, Run(db, batches).discrepancies, id);
    }
  }

  // ---- Source health is the freshest record ------------------------------------------------------

  /** The health records of the calls that inserted, in order. */
  function AcceptedHealth(db: Db, batches: seq<Batch>): seq<Health> {
    if batches == [] then []
    else
      var before := AcceptedHealth(db, batches[..|batches| - 1]);
      var r := Persist(Run(db, batches[..|batches| - 1]), batches[|batches| - 1]);
      if r.Ok? && r.value.1 == Inserted then before + batches[|batches| - 1].health else before
  }

  lemma {:induction false} FoldConcat(health: map<string, Health>, a: seq<Health>, b: seq<Health>)
    ensures HealthFold(health, a + b) == HealthFold(HealthFold(health, a), b)
  {
    if b == [] {
      assert a + b == a;
    } else {
      FoldConcat(health, a, b[..|b| - 1]);
      assert (a + b)[..|a + b| - 1] == a + b[..|b| - 1];
    }
  }

  lemma {:induction false} HealthIsFold(db: Db, batches: seq<Batch>)
    ensures Run(db, batches).health == HealthFold(db.health, AcceptedHealth(db, batches))
  {
    if batches != [] {
      var mid, b := Run(db, batches[..|batches| - 1]), batches[|batches| - 1];
      HealthIsFold(db, batches[..|batches| - 1]);
      if Persist(mid, b).Ok? && Persist(mid, b).value.1 == Inserted {
        TakeShape(mid, b);
        InsertionShape(mid, b);
        FoldConcat(db.health, AcceptedHealth(db, batches[..|batches| - 1]), b.health);
      }
    }
  }

  /** The record at `i` has the greatest observation time of its source, and none before it has the same time. */
  ghost predicate Freshest(records: seq<Health>, i: nat) {
    && i < |records|
    && (forall j | 0 <= j < |records| && records[j].sourceId == records[i].sourceId :: records[j].observedAt <= records[i].observedAt)
    && (forall j | 0 <= j < i && records[j].sourceId == records[i].sourceId :: records[j].observedAt < records[i].observedAt)
  }

  lemma {:induction false} IsStored(records: seq<Health>, s: string, j: nat)
    requires j < |records| && records[j].sourceId == s
    ensures s in HealthFold(map[], records)
  {
    if j < |records| - 1 { IsStored(records[..|records| - 1], s, j); }
  }

  /** What the fold stores for a source is the freshest of its records. */
  lemma {:induction false} StoredIsFreshest(records: seq<Health>, s: string) returns (i: nat)
    requires s in HealthFold(map[], records)
    ensures Freshest(records, i) && records[i].sourceId == s && HealthFold(map[], records)[s] == records[i]
  {
    var n := |records| - 1;
    var prefix, last := records[..n], records[n];
    if s in HealthFold(map[], prefix) {
      i := StoredIsFreshest(prefix, s);
      if last.sourceId == s && last.observedAt > prefix[i].observedAt {
        i := n;
      } else {
      }
    } else {
      i := n;
      forall j | 0 <= j < n ensures prefix[j].sourceId != s {
        if prefix[j].sourceId == s { IsStored(prefix, s, j); }
      }
    }
  }

  /** In every run the stored health of a source is the accepted record that was observed last, the first among equals. */
  lemma {:induction false} HealthIsFreshest(batches: seq<Batch>, s: string)
    ensures var records := AcceptedHealth(EMPTY, batches); var health := Run(EMPTY, batches).health;
      && (s in health <==> exists i: nat :: i < |records| && records[i].sourceId == s)
      && (s in health ==> exists i: nat :: Freshest(records, i) && records[i].sourceId == s && health[s] == records[i])
  {
    var records := AcceptedHealth(EMPTY, batches);
    HealthIsFold(EMPTY, batches);
    if s in Run(EMPTY, batches).health { var i := StoredIsFreshest(records, s); }
    if j: nat :| j < |records| && records[j].sourceId == s { IsStored(records, s, j); }
  }

  /** One of the records of its source that were observed last. */
  ghost predicate Latest(records: seq<Health>, h: Health) {
    h in records && forall other | other in records && other.sourceId == h.sourceId :: other.observedAt <= h.observedAt
  }

  /** No source has two different records at its greatest time. */
  ghost predicate OneLatest(records: seq<Health>) {
    forall a, b | Latest(records, a) && Latest(records, b) && a.sourceId == b.sourceId :: a == b
  }

  lemma {:induction false} IndexOf(records: seq<Health>, h: Health) returns (k: nat)
    requires h in records
    ensures k < |records| && records[k] == h
  {
    k :| k < |records| && records[k] == h;
  }

  lemma {:induction false} StoredIsLatest(records: seq<Health>, s: string)
    requires s in HealthFold(map[], records)
    ensures Latest(records, HealthFold(map[], records)[s]) && HealthFold(map[], records)[s].sourceId == s
  {
    var i := StoredIsFreshest(records, s);
    forall other | other in records && other.sourceId == s ensures other.observedAt <= records[i].observedAt {
      var j := IndexOf(records, other);
    }
  }

  lemma {:induction false} StoredAlike(a: seq<Health>, b: seq<Health>, s: string)
    requires multiset(a) == multiset(b) && s in HealthFold(map[], a)
    ensures s in HealthFold(map[], b)
  {
    var i := StoredIsFreshest(a, s);
    assert a[i] in multiset(b);
    var k := IndexOf(b, a[i]);
    IsStored(b, s, k);
  }

  lemma {:induction false} LatestForgetsOrder(a: seq<Health>, b: seq<Health>, h: Health)
    requires multiset(a) == multiset(b) && Latest(b, h)
    ensures Latest(a, h)
  {
    assert h in multiset(a);
    forall other | other in a ensures other in b { assert other in multiset(b); }
  }

  /** With one latest record for each source the order of arrival does not matter. */
  lemma {:induction false} OrderForgotten(a: seq<Health>, b: seq<Health>)
    requires multiset(a) == multiset(b) && OneLatest(a)
    ensures HealthFold(map[], a) == HealthFold(map[], b)
  {
    forall s | s in HealthFold(map[], a) ensures s in HealthFold(map[], b) && HealthFold(map[], b)[s] == HealthFold(map[], a)[s] {
      StoredAlike(a, b, s);
      StoredIsLatest(a, s);
      StoredIsLatest(b, s);
      LatestForgetsOrder(a, b, HealthFold(map[], b)[s]);
    }
    forall s | s in HealthFold(map[], b) ensures s in HealthFold(map[], a) { StoredAlike(b, a, s); }
  }

  /** A latest record that arrives first is the one stored. */
  lemma {:induction false} FirstLatestStays(a: seq<Health>, h: Health) returns (b: seq<Health>)
    requires Latest(a, h)
    ensures multiset(b) == multiset(a)
    ensures h.sourceId in HealthFold(map[], b) && HealthFold(map[], b)[h.sourceId] == h
  {
    var k := IndexOf(a, h);
    b := [a[k]] + (a[..k] + a[k + 1..]);
    assert a == a[..k] + ([a[k]] + a[k + 1..]);
    assert b[0] == h;
    IsStored(b, h.sourceId, 0);
    var i := StoredIsFreshest(b, h.sourceId);
    LatestForgetsOrder(b, a, h);
    assert b[i] in b && b[0].observedAt <= b[i].observedAt <= h.observedAt;
  }

  /**
   * Health forgets the order of arrival exactly when no source has two different records at its greatest time: then
   * every order leaves the same table, otherwise two orders leave different ones.
   */
  lemma {:induction false} HealthForgetsOrderExactly(a: seq<Health>)
    ensures (forall b | multiset(b) == multiset(a) :: HealthFold(map[], b) == HealthFold(map[], a)) <==> OneLatest(a)
  {
    if OneLatest(a) {
      forall b | multiset(b) == multiset(a) ensures HealthFold(map[], b) == HealthFold(map[], a) { OrderForgotten(a, b); }
    } else {
      var x, y :| Latest(a, x) && Latest(a, y) && x.sourceId == y.sourceId && x != y;
      var b := FirstLatestStays(a, x);
      var c := FirstLatestStays(a, y);
      assert HealthFold(map[], b) != HealthFold(map[], c);
    }
  }
}
