/** Which discrepancies a case can be opened for: the event that triggers it must have a short identifier. */
module CaseOpenings {
  import opened Outcomes
  import opened Decimals
  import opened Discrepancy
  import opened DiscrepancyLaws
  import opened ReplyCase
  import opened RightOfReply
  import opened ReplyTheorems

  // ---- What a measurement logs -------------------------------------------------------------------

  /** A measurement event is logged under the identifier of its discrepancy, cycle and kind. */
  predicate Derived(e: Entry) {
    e.body.MeasuredBody? ==>
      var m := e.body.event;
      Identifier(e.discrepancyId) && Identifier(m.cycleId) && e.key == TextKey(EventId(e.discrepancyId, m.cycleId, m.kind))
  }

  predicate MeasuredIn(e: Entry, d: string, cycleId: string) {
    e.body.MeasuredBody? ==> Derived(e) && e.discrepancyId == d && e.body.event.cycleId == cycleId
  }

  lemma {:induction false} AdvanceDerives(prior: Option<State>, d: string, sourceId: string, namedParty: bool, version: string,
                                          cycle: Cycle)
    requires Advance(prior, d, sourceId, namedParty, version, cycle).Ok?
    ensures forall e | e in Advance(prior, d, sourceId, namedParty, version, cycle).value.events ::
              MeasuredIn(MeasurementEntry(e), d, cycle.id)
  {}

  lemma {:induction false} LogEventsAppend(db: Db, events: seq<MeasurementEvent>)
    requires LogEvents(db, events).Ok?
    ensures var next := LogEvents(db, events).value;
      && next == db.(log := next.log) && |next.log| == |db.log| + |events| && next.log[..|db.log|] == db.log
      && forall i | 0 <= i < |events| :: next.log[|db.log| + i] == MeasurementEntry(events[i])
  {
    if events != [] { LogEventsAppend(db, events[..|events| - 1]); }
  }

  lemma {:induction false} EventsDerive(stored: Db, next: Db, events: seq<MeasurementEvent>, d: string, cycleId: string)
    requires LogEvents(stored, events) == Ok(next) && forall e | e in events :: MeasuredIn(MeasurementEntry(e), d, cycleId)
    ensures next.cases == stored.cases && |stored.log| <= |next.log| && next.log[..|stored.log|] == stored.log
    ensures forall i | |stored.log| <= i < |next.log| :: MeasuredIn(next.log[i], d, cycleId)
  {
    LogEventsAppend(stored, events);
    forall i | |stored.log| <= i < |next.log| ensures MeasuredIn(next.log[i], d, cycleId) {
      var k := i - |stored.log|;
      assert next.log[|stored.log| + k] == MeasurementEntry(events[k]) && events[k] in events;
    }
  }

  lemma {:induction false} MeasureAppends(db: Db, d: string, sourceId: string, namedParty: bool, version: string, cycle: Cycle)
    requires Measure(db, d, sourceId, namedParty, version, cycle).Ok?
    ensures var next := Measure(db, d, sourceId, namedParty, version, cycle).value;
      && next.cases == db.cases && |db.log| <= |next.log| && next.log[..|db.log|] == db.log
      && forall i | |db.log| <= i < |next.log| :: MeasuredIn(next.log[i], d, cycle.id)
  {
    var prior := if d in db.states then Some(db.states[d]) else None;
    var a := Advance(prior, d, sourceId, namedParty, version, cycle).value;
    AdvanceDerives(prior, d, sourceId, namedParty, version, cycle);
    if a.ignored.None? && a.state.Some? {
      var row := if prior.Some? then a.state.value.(firstObservedAt := prior.value.firstObservedAt) else a.state.value;
      EventsDerive(db.(states := db.states[d := row]), Measure(db, d, sourceId, namedParty, version, cycle).value, a.events, d, cycle.id);
    }
  }

  /** Nothing measured is logged, and the cases stay. */
  ghost predicate OnlyActions(db: Db, next: Db) {
    && db.log <= next.log && (forall i | |db.log| <= i < |next.log| :: !next.log[i].body.MeasuredBody?)
    && next.cases.Keys == db.cases.Keys
  }

  lemma {:induction false} ExpireActs(db: Db, rows: seq<string>, n: nat, now: int)
    requires n <= |rows| && forall d | d in rows :: d in db.states && d in db.cases
    requires ExpireRows(db, rows, n, now).Ok?
    ensures OnlyActions(db, ExpireRows(db, rows, n, now).value)
  {
    if n > 0 { ExpireActs(db, rows, n - 1, now); }
  }

  lemma {:induction false} ReviewActs(db: Db, step: Step)
    requires Perform(db, step).Ok? && step.ReviewStep?
    ensures OnlyActions(db, Perform(db, step).value)
  {}

  lemma {:induction false} ExchangeActs(db: Db, step: Step)
    requires Perform(db, step).Ok? && (step.DeliverStep? || step.ReplyStep?)
    ensures OnlyActions(db, Perform(db, step).value)
  {}

  lemma {:induction false} QueueActs(db: Db, step: Step)
    requires Perform(db, step).Ok?
    requires step.EnqueueStep? || step.ClaimStep? || step.RequeueStep? || step.CorrectStep? || step.AmendStep?
    ensures OnlyActions(db, Perform(db, step).value)
  {}

  /** All but openings and measurements. */
  lemma {:induction false} OthersAct(db: Db, step: Step)
    requires Perform(db, step).Ok? && !step.MeasureStep? && !step.OpenCaseStep?
    ensures OnlyActions(db, Perform(db, step).value)
  {
    if step.ExpireStep? { ExpireActs(db, step.due, |step.due|, step.now); }
    else if step.ReviewStep? { ReviewActs(db, step); }
    else if step.DeliverStep? || step.ReplyStep? { ExchangeActs(db, step); }
    else { QueueActs(db, step); }
  }

  /** Only measurements log measurement events, only openings add cases, and no step removes one. */
  lemma {:induction false} StepLogs(db: Db, step: Step)
    requires Perform(db, step).Ok?
    ensures var next := Perform(db, step).value;
      && |db.log| <= |next.log| && next.log[..|db.log|] == db.log
      && (forall i | |db.log| <= i < |next.log| ::
            if step.MeasureStep? then MeasuredIn(next.log[i], step.d, step.cycle.id) else !next.log[i].body.MeasuredBody?)
      && db.cases.Keys <= next.cases.Keys && (!step.OpenCaseStep? ==> next.cases.Keys == db.cases.Keys)
  {
    if step.MeasureStep? {
      MeasureAppends(db, step.d, step.sourceId, step.namedParty, step.version, step.cycle);
    } else if !step.OpenCaseStep? {
      OthersAct(db, step);
    }
  }

  // ---- The trigger of a case ---------------------------------------------------------------------

  predicate Triggers(e: Entry, d: string) {
    e.discrepancyId == d && e.body.MeasuredBody? && e.body.event.kind in {Opened, Observed, Escalated}
  }

  ghost predicate HasTrigger(log: seq<Entry>, d: string) {
    exists i :: 0 <= i < |log| && Triggers(log[i], d) && Nameable(log[i].key)
  }

  /** Every case was triggered by an event with an acceptable identifier, and events are logged under their own. */
  ghost predicate Triggered(db: Db, d: string) {
    (forall i | 0 <= i < |db.log| :: Derived(db.log[i])) && (d in db.cases ==> HasTrigger(db.log, d))
  }

  lemma {:induction false} OpeningTriggered(db: Db, step: Step, d: string)
    requires step.OpenCaseStep? && Perform(db, step).Ok? && d in Perform(db, step).value.cases && d !in db.cases
    ensures HasTrigger(db.log, d)
  {
    var i :| 0 <= i < |db.log| && db.log[i].key == step.trigger && Triggers(db.log[i], d);
    assert Nameable(db.log[i].key);
  }

  lemma {:induction false} TriggerStays(log: seq<Entry>, longer: seq<Entry>, d: string)
    requires HasTrigger(log, d) && |log| <= |longer| && longer[..|log|] == log
    ensures HasTrigger(longer, d)
  {
    var i :| 0 <= i < |log| && Triggers(log[i], d) && Nameable(log[i].key);
    assert longer[i] == log[i];
  }

  lemma {:induction false} TakeKeepsTriggered(db: Db, step: Step, d: string)
    requires Triggered(db, d)
    ensures Triggered(Take(db, step), d)
  {
    if Perform(db, step).Ok? {
      var next := Perform(db, step).value;
      StepLogs(db, step);
      forall i | 0 <= i < |next.log| ensures Derived(next.log[i]) {
        assert i < |db.log| ==> next.log[i] == db.log[i];
      }
      if d in next.cases {
        if d !in db.cases { OpeningTriggered(db, step, d); }
        TriggerStays(db.log, next.log, d);
      }
    }
  }

  lemma {:induction false} RunKeepsTriggered(steps: seq<Step>, d: string)
    ensures Triggered(Run(EMPTY, steps), d)
  {
    if steps != [] {
      RunKeepsTriggered(steps[..|steps| - 1], d);
      TakeKeepsTriggered(Run(EMPTY, steps[..|steps| - 1]), steps[|steps| - 1], d);
    }
  }

  /** The length of an event identifier. */
  function IdLength(d: string, cycleId: string, kind: Kind): nat {
    |d| + |cycleId| + |Print(|d|)| + |Print(|cycleId|)| + |KindText(kind)| + 6
  }

  lemma {:induction false} NameableExactly(e: Entry)
    requires Derived(e) && e.body.MeasuredBody?
    ensures Nameable(e.key) <==> IdLength(e.discrepancyId, e.body.event.cycleId, e.body.event.kind) <= 128
  {
    EventIdIsIdentifierExactly(e.discrepancyId, e.body.event.cycleId, e.body.event.kind);
  }

  ghost predicate ShortTrigger(log: seq<Entry>, d: string, trigger: Key) {
    exists i :: 0 <= i < |log| && log[i].key == trigger && Triggers(log[i], d)
                && IdLength(d, log[i].body.event.cycleId, log[i].body.event.kind) <= 128
  }

  lemma {:induction false} ShortTriggerExactly(log: seq<Entry>, d: string, trigger: Key)
    requires forall i | 0 <= i < |log| :: Derived(log[i])
    ensures ShortTrigger(log, d, trigger) <==> EligibleTrigger(log, d, trigger) && Nameable(trigger)
  {
    forall i | 0 <= i < |log| && Triggers(log[i], d)
      ensures Nameable(log[i].key) <==> IdLength(d, log[i].body.event.cycleId, log[i].body.event.kind) <= 128
    {
      NameableExactly(log[i]);
    }
    if EligibleTrigger(log, d, trigger) && Nameable(trigger) {
      var i :| 0 <= i < |log| && log[i].key == trigger && Triggers(log[i], d);
      assert IdLength(d, log[i].body.event.cycleId, log[i].body.event.kind) <= 128;
    }
  }

  /** An open deviation of a named party above Info that nothing was published of. */
  predicate Raised(s: State) {
    s.namedParty && s.lifecycle == Open && (s.severity == Warning || s.severity == Critical) && s.publication == Internal
  }

  /**
   * In every reachable state a case opens for a discrepancy without one exactly when the discrepancy is eligible, the
   * trigger is an eligible event of it whose identifier has at most 128 characters, the contacts are well-formed, distinct
   * and verified by then, and none of their notices exists.
   */
  lemma {:induction false} OpensExactly(steps: seq<Step>, d: string, trigger: Key, openedAt: int, verified: bool,
                                        contacts: seq<Contact>)
    requires d !in Run(EMPTY, steps).cases
    ensures var db := Run(EMPTY, steps);
      OpenCase(db, d, trigger, openedAt, verified, contacts).Ok? <==>
        && verified && d in db.states && Raised(db.states[d]) && ShortTrigger(db.log, d, trigger)
        && contacts != [] && (forall i, j | 0 <= i < |contacts| && 0 <= j < |contacts| && contacts[i].id == contacts[j].id :: i == j)
        && (forall c | c in contacts :: Identifier(c.id) && c.verifiedAt <= openedAt)
        && (forall c | c in contacts ::
              InitialNotice(d, c.id) !in db.notices && forall n | n in db.notices :: db.notices[n].key != InitialKey(d, c.id))
  {
    var db := Run(EMPTY, steps);
    RunKeepsTriggered(steps, d);
    ReachableInv(steps);
    assert RowSound(db, d);
    ShortTriggerExactly(db.log, d, trigger);
  }

  // ---- Whether a case can ever open --------------------------------------------------------------

  /** All measured cycles of the discrepancy have identifiers of `n` characters. */
  predicate CyclesOf(steps: seq<Step>, d: string, n: nat) {
    forall step | step in steps :: step.MeasureStep? && step.d == d ==> |step.cycle.id| == n
  }

  ghost predicate LoggedCycles(db: Db, d: string, n: nat) {
    forall i | 0 <= i < |db.log| && db.log[i].discrepancyId == d && db.log[i].body.MeasuredBody? ::
      |db.log[i].body.event.cycleId| == n
  }

  lemma {:induction false} RunLogsCycles(steps: seq<Step>, d: string, n: nat)
    requires CyclesOf(steps, d, n)
    ensures LoggedCycles(Run(EMPTY, steps), d, n)
  {
    if steps != [] {
      var db, step := Run(EMPTY, steps[..|steps| - 1]), steps[|steps| - 1];
      RunLogsCycles(steps[..|steps| - 1], d, n);
      assert step in steps;
      if Perform(db, step).Ok? {
        var next := Perform(db, step).value;
        StepLogs(db, step);
        assert forall i | 0 <= i < |db.log| :: next.log[i] == db.log[i];
      }
    }
  }

  /** The identifier of an opening event has at most 128 characters. */
  predicate ShortEnough(d: string, n: nat) { |d| + n + |Print(|d|)| + |Print(n)| + 12 <= 128 }

  lemma {:induction false} LongNeverOpens(steps: seq<Step>, d: string, n: nat)
    requires CyclesOf(steps, d, n) && !ShortEnough(d, n)
    ensures d !in Run(EMPTY, steps).cases
  {
    var db := Run(EMPTY, steps);
    RunKeepsTriggered(steps, d);
    RunLogsCycles(steps, d, n);
    forall i | 0 <= i < |db.log| && Triggers(db.log[i], d) ensures !Nameable(db.log[i].key) { NameableExactly(db.log[i]); }
  }

  function CycleName(n: nat): string { seq(n, _ => 'c') }

  function FirstState(d: string, n: nat): State {
    State(d, "s1", "v1", true, Warning, Open, Internal, NotRequired, 1, 1, 0, 0, 0, CycleName(n), 0)
  }

  lemma {:induction false} FirstAdvances(d: string, n: nat) returns (e: MeasurementEvent)
    requires Identifier(d) && 1 <= n <= 128
    ensures Identifier(CycleName(n)) && Valid(FirstState(d, n))
    ensures Advance(None, d, "s1", true, "v1", Cycle(CycleName(n), 0, AboveInfo)) == Ok(Advanced(Some(FirstState(d, n)), [e], None))
    ensures e.id == EventId(d, CycleName(n), Opened) && e.kind == Opened && e.discrepancyId == d
  {
    assert Identifier("s1") && Identifier("v1") && Identifier(CycleName(n));
    e := Advance(None, d, "s1", true, "v1", Cycle(CycleName(n), 0, AboveInfo)).value.events[0];
  }

  /** The tables after the first measurement of a named party. */
  function Measured(d: string, n: nat, e: MeasurementEvent): Db {
    EMPTY.(states := map[d := FirstState(d, n)], log := [MeasurementEntry(e)])
  }

  function FirstStep(d: string, n: nat): Step { MeasureStep(d, "s1", true, "v1", Cycle(CycleName(n), 0, AboveInfo)) }

  lemma {:induction false} FirstMeasures(d: string, n: nat) returns (e: MeasurementEvent)
    requires Identifier(d) && 1 <= n <= 128
    ensures Valid(FirstState(d, n)) && Identifier(CycleName(n))
    ensures Take(EMPTY, FirstStep(d, n)) == Measured(d, n, e)
    ensures e.id == EventId(d, CycleName(n), Opened) && e.kind == Opened && e.discrepancyId == d
  {
    e := FirstAdvances(d, n);
    var stored := EMPTY.(states := EMPTY.states[d := FirstState(d, n)]);
    assert [e][..0] == [] && LogEvents(stored, []) == Ok(stored);
    assert LogEvents(stored, [e]) == Append(stored, MeasurementEntry(e));
    assert stored.log + [MeasurementEntry(e)] == [MeasurementEntry(e)];
    assert Measure(EMPTY, d, "s1", true, "v1", Cycle(CycleName(n), 0, AboveInfo)) == Ok(Measured(d, n, e));
  }

  const CONTACTS: seq<Contact> := [Contact("a", 0)]

  lemma {:induction false} FirstOpens(d: string, n: nat, e: MeasurementEvent)
    requires Valid(FirstState(d, n)) && e.id == EventId(d, CycleName(n), Opened) && e.kind == Opened && e.discrepancyId == d
    requires Identifier(e.id)
    ensures d in Take(Measured(d, n, e), OpenCaseStep(d, TextKey(e.id), 0, true, CONTACTS)).cases
  {
    var db := Measured(d, n, e);
    assert db.log[0].key == TextKey(e.id);
    assert CONTACTS[0] == Contact("a", 0) && Identifier("a");
    assert !NoticesTaken(db.notices, d, CONTACTS);
    assert OpenCase(db, d, TextKey(e.id), 0, true, CONTACTS).Ok?;
  }

  lemma {:induction false} TwoSteps(first: Step, second: Step)
    ensures Run(EMPTY, [first, second]) == Take(Take(EMPTY, first), second)
  {
    assert [first, second][..1] == [first] && [first][..0] == [] && Run(EMPTY, []) == EMPTY;
    assert Run(EMPTY, [first]) == Take(EMPTY, first);
  }

  lemma {:induction false} ShortOpens(d: string, n: nat) returns (steps: seq<Step>)
    requires Identifier(d) && 1 <= n <= 128 && ShortEnough(d, n)
    ensures CyclesOf(steps, d, n) && d in Run(EMPTY, steps).cases
  {
    var e := FirstMeasures(d, n);
    EventIdIsIdentifierExactly(d, CycleName(n), Opened);
    FirstOpens(d, n, e);
    var second := OpenCaseStep(d, TextKey(e.id), 0, true, CONTACTS);
    TwoSteps(FirstStep(d, n), second);
    steps := [FirstStep(d, n), second];
  }

  /**
   * Some run opens a case for a discrepancy measured in cycles with identifiers of a given length exactly when the two
   * lengths leave its opening event an identifier of at most 128 characters.
   */
  lemma {:induction false} CanOpenExactly(d: string, n: nat)
    requires Identifier(d) && 1 <= n <= 128
    ensures (exists steps :: CyclesOf(steps, d, n) && d in Run(EMPTY, steps).cases) <==> ShortEnough(d, n)
  {
    if ShortEnough(d, n) {
      var steps := ShortOpens(d, n);
    } else {
      forall steps | CyclesOf(steps, d, n) ensures d !in Run(EMPTY, steps).cases { LongNeverOpens(steps, d, n); }
    }
  }

  // ---- Without a case there is no publication ----------------------------------------------------

  predicate Unpublished(db: Db, d: string) { d in db.states ==> db.states[d].publication == Internal }

  lemma {:induction false} ExpireUnpublished(db: Db, rows: seq<string>, n: nat, now: int, d: string)
    requires n <= |rows| && d !in rows && (forall x | x in rows :: x in db.states && x in db.cases)
    requires ExpireRows(db, rows, n, now).Ok? && Unpublished(db, d)
    ensures Unpublished(ExpireRows(db, rows, n, now).value, d)
  {
    if n > 0 {
      ExpireUnpublished(db, rows, n - 1, now, d);
      assert rows[n - 1] in rows;
    }
  }

  lemma {:induction false} MeasureUnpublished(db: Db, step: Step, d: string)
    requires Inv(db) && step.MeasureStep? && Perform(db, step).Ok? && Unpublished(db, d)
    ensures Unpublished(Perform(db, step).value, d)
  {
    var prior := if step.d in db.states then Some(db.states[step.d]) else None;
    var a := Advance(prior, step.d, step.sourceId, step.namedParty, step.version, step.cycle).value;
    assert RowSound(db, step.d);
    if a.ignored.None? && a.state.Some? {
      var row := if prior.Some? then a.state.value.(firstObservedAt := prior.value.firstObservedAt) else a.state.value;
      MeasuredRow(prior, step.d, step.sourceId, step.namedParty, step.version, step.cycle, a, row);
      LogEventsAppend(db.(states := db.states[step.d := row]), a.events);
    }
  }

  lemma {:induction false} ReviewUnpublished(db: Db, step: Step, d: string)
    requires Perform(db, step).Ok? && step.ReviewStep? && d !in db.cases && Unpublished(db, d)
    ensures Unpublished(Perform(db, step).value, d)
  {}

  lemma {:induction false} ExchangeUnpublished(db: Db, step: Step, d: string)
    requires Perform(db, step).Ok? && (step.DeliverStep? || step.ReplyStep?) && d !in db.cases && Unpublished(db, d)
    ensures Unpublished(Perform(db, step).value, d)
  {}

  lemma {:induction false} OthersUnpublished(db: Db, step: Step, d: string)
    requires Perform(db, step).Ok? && !step.MeasureStep? && d !in db.cases && Unpublished(db, d)
    ensures Unpublished(Perform(db, step).value, d)
  {
    if step.ExpireStep? { ExpireUnpublished(db, step.due, |step.due|, step.now, d); }
    else if step.ReviewStep? { ReviewUnpublished(db, step, d); }
    else if step.DeliverStep? || step.ReplyStep? { ExchangeUnpublished(db, step, d); }
  }

  /** In every run a discrepancy without a case is internal. */
  lemma {:induction false} NoCaseNoPublication(steps: seq<Step>, d: string)
    requires d !in Run(EMPTY, steps).cases
    ensures Unpublished(Run(EMPTY, steps), d)
  {
    if steps != [] {
      var db, step := Run(EMPTY, steps[..|steps| - 1]), steps[|steps| - 1];
      if Perform(db, step).Ok? { StepLogs(db, step); }
      NoCaseNoPublication(steps[..|steps| - 1], d);
      ReachableInv(steps[..|steps| - 1]);
      if Perform(db, step).Ok? {
        if step.MeasureStep? { MeasureUnpublished(db, step, d); } else { OthersUnpublished(db, step, d); }
      }
    }
  }

  /**
   * An anchor reserve discrepancy is named by 15 characters and a digest of 64, a scheduled cycle by 6 characters and a
   * digest. Over any run no case ever opens for such a discrepancy, nobody is notified of it, and it stays internal.
   */
  lemma {:induction false} ReservesNeverOpen(steps: seq<Step>, d: string)
    requires |d| == 15 + 64 && CyclesOf(steps, d, 6 + 64)
    ensures d !in Run(EMPTY, steps).cases
    ensures forall n | n in Run(EMPTY, steps).notices :: Run(EMPTY, steps).notices[n].discrepancyId != d
    ensures d in Run(EMPTY, steps).states ==> Run(EMPTY, steps).states[d].publication == Internal
  {
    LongNeverOpens(steps, d, 6 + 64);
    NoCaseNoPublication(steps, d);
    ReachableInv(steps);
  }
}
